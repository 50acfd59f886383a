# androsig matching engine in Dafny

androsig recognises third-party library code inside a name-stripped Android binary (a DEX
unit) and gives its classes and methods back their library names. It does this by matching
against a database of library signature files. This project models two parts of it and proves
properties of the model:

- **The match-decision engine of `DatabaseMatcher2`.** The model covers:
  - the acceptance gate `f`, with its per-class instruction-count cache;
  - how `getClass` ranks the candidates of one binary class: `getBestCandidates`,
    `filterVersions`, the tie-break on per-version method counts, the same-class-name
    shortcut, deferral in strict mode, and the "file already in use, else first" fallback;
  - the inner-class gate of `getClass`, and the `$`-segment checks of
    `storeFinalCandidate`;
  - the commit and the rollback of `storeFinalCandidate`;
  - the round driver `storeMatchedClassesAndMethods`, with its two passes of
    `storeFinalCandidates`, the context merge and the rollback of duplicate claims;
  - the method-renaming sweep of `postProcessRenameClasses`, with `getAlreadyMatched` and
    `getCandidateFilesForClass`;
  - the caller rule of `postProcessRenameMethods`, with `getBestCallers`.
- **The in-memory signature index of `SignatureFile`.** The model covers:
  - `saveValue` and `storeMethodHash`, including the merge of revisions;
  - the class-name queries and `getParent`;
  - `checkMarker` and the line loop of `loadSignatures`;
  - the index-building part of `populate`.

The binary is an abstract value (`Dex.Binary`): classes and methods are ids, each with the
few facts the engine reads. The engine talks to collaborators whose code is not part of this
model: MatchingSearch, FileMatches, ContextMatches, DexUtilLocal and SignatureHandler. These
are function-valued parameters (`Dex.Oracles`). Where the engine changes FileMatches or
ContextMatches, the model keeps those calls, in order, as a log (`fileLog` of `Dex.FileEvent`,
`ctxLog` of `Dex.CtxEvent`). What the collaborator answers later is a function of that log.
One call is read as a pure query: `getMatchedClassFile` (see "Left out").

`Matcher.DatabaseMatcher` is a class whose fields are the maps the Java class updates in
place. Each of its methods is proved against a function of the old state. Those functions
live in `MatchState`, `Merging`, `Refinement` and `Callers`, and the lemmas there state what
the source promises about them. `SignatureFiles.SignatureFile` does the same for the
signature index. Its method-signature objects are an arena of records, and its four
multimaps hold ids into that arena, so a revision added through one list is seen through all
of them.

Hash-map iteration order is never fixed. A method that walks a `HashMap` picks its keys in
an arbitrary order (`:|`) and returns that order as a ghost output. Its contract holds for
whatever order was taken.

Files: `wrappers.dfy` (Option), `strings.dfy` (the Java string operations used),
`dex.dfy` (the binary, the candidates and the collaborators), `gate.dfy`, `ranking.dfy`,
`inner.dfy`, `match_state.dfy`, `merge.dfy`, `refine.dfy`, `callers.dfy`, `matcher.dfy` and
`signature_file.dfy`.

## Model

| member | source | states |
|---|---|---|
| JavaStrings.LastIndexOf | src/com/pnf/androsig/apply/matcher/DatabaseMatcher2.java:424-425 | `lastIndexOf`: -1 exactly when the character is absent; otherwise a position holding it with none after it |
| JavaStrings.TrimIsSlice | src/com/pnf/androsig/apply/model/SignatureFile.java:59-62 | `trim` yields a slice of the line with only trimmable characters cut at each end; it is empty exactly for a blank line, and otherwise starts and ends with a non-trimmable character |
| JavaStrings.TrimIdempotent | src/com/pnf/androsig/apply/model/SignatureFile.java:59 | trimming an already trimmed line changes nothing |
| JavaStrings.CutAtLastRemovesOne | src/com/pnf/androsig/apply/matcher/DatabaseMatcher2.java:440-441 | cutting a name at its last `$` and closing it with `;` leaves one `$` fewer |
| Dex.Binary.ClassNamed | src/com/pnf/androsig/apply/matcher/DatabaseMatcher2.java:442-447 | `getClass(name)` answers only a class of the binary whose signature is that name |
| Gate.AcceptIsRatio | src/com/pnf/androsig/apply/matcher/DatabaseMatcher2.java:578-581 | with a positive total, the gate accepts exactly when matched/total exceeds the bar; a ratio equal to the bar is rejected |
| Gate.MatchedAtMostTotal | src/com/pnf/androsig/apply/matcher/DatabaseMatcher2.java:556-575 | the matched instructions never exceed the class total |
| Gate.MatchedAllIsTotal | src/com/pnf/androsig/apply/matcher/DatabaseMatcher2.java:556-575 | when every counted method is matched, the matched share is the whole total |
| Gate.NoCountedNoTotal | src/com/pnf/androsig/apply/matcher/DatabaseMatcher2.java:556-575 | a class with no internal method that has code has total 0 |
| Gate.RejectedShapes | src/com/pnf/androsig/apply/matcher/DatabaseMatcher2.java:544-555 | on the uncached path, a class without methods, or whose only method is `<init>` or `<clinit>`, is rejected and nothing is cached |
| Gate.FullMatchAccepted | src/com/pnf/androsig/apply/matcher/DatabaseMatcher2.java:549-581 | with a bar below 1, a class of any other shape whose counted methods are all matched is accepted |
| Gate.HighBarRejects | src/com/pnf/androsig/apply/matcher/DatabaseMatcher2.java:578-581 | with a bar of 1 or more, an uncached class is accepted only when its total is 0 (the NaN case) |
| Matcher.DatabaseMatcher.F | src/com/pnf/androsig/apply/matcher/DatabaseMatcher2.java:531-582 | `f` answers the gate's decision: the ratio over the cached total when one exists, else over a fresh count. Only `instruCount` changes, and only when the uncached pass counted some method |
| Ranking.MaxScore | src/com/pnf/androsig/apply/matcher/DatabaseMatcher2.java:400-413 | the running maximum is never below the incoming `higherOccurence` |
| Ranking.MaxScoreIsMax | src/com/pnf/androsig/apply/matcher/DatabaseMatcher2.java:402-411 | the maximum bounds every candidate's score and is reached by one, unless it is the incoming value |
| Ranking.OfScoreMembers | src/com/pnf/androsig/apply/matcher/DatabaseMatcher2.java:402-411 | the kept list holds exactly the candidates scoring the maximum |
| Ranking.OfScoreAbove | src/com/pnf/androsig/apply/matcher/DatabaseMatcher2.java:403-406 | no candidate reaches a score above all scores, so a raised maximum empties the list |
| Ranking.OfScoreAppend | src/com/pnf/androsig/apply/matcher/DatabaseMatcher2.java:280-284 | selecting by score distributes over concatenated files |
| Ranking.MaxScoreAppend | src/com/pnf/androsig/apply/matcher/DatabaseMatcher2.java:280-284 | the maximum over two files is the second file's maximum started from the first's |
| Ranking.GetBestCandidates | src/com/pnf/androsig/apply/matcher/DatabaseMatcher2.java:400-413 | returns the maximum of the incoming value and all scores; the list is cleared exactly when the maximum rose, then holds the candidates of that score in encounter order |
| Ranking.BestAcrossFiles | src/com/pnf/androsig/apply/matcher/DatabaseMatcher2.java:280-284 | folding every file leaves exactly the candidates of all files that reach the overall maximum, in order |
| Ranking.FilterVersions | src/com/pnf/androsig/apply/matcher/DatabaseMatcher2.java:380-398 | a null set returns the input; a non-empty set and a null version array return the input; otherwise only the candidates sharing a version remain, in order |
| Ranking.Carries | src/com/pnf/androsig/apply/matcher/DatabaseMatcher2.java:386-395 | the inner loop finds a null array exactly when the set is non-empty, and a match exactly when the candidate carries one of the versions |
| Ranking.SharingMembers | src/com/pnf/androsig/apply/matcher/DatabaseMatcher2.java:384-397 | the filtered list keeps exactly the candidates sharing a version and is no longer than the input |
| Ranking.EmptyVersionSetKeepsNothing | src/com/pnf/androsig/apply/matcher/DatabaseMatcher2.java:384-397 | an empty version set keeps no candidate, null arrays included |
| Ranking.CountsOfIsMultiset | src/com/pnf/androsig/apply/matcher/DatabaseMatcher2.java:297-310 | the per-version counters hold exactly the tags seen, each with its number of occurrences |
| Ranking.CountPerVersion | src/com/pnf/androsig/apply/matcher/DatabaseMatcher2.java:297-310 | `methodCountPerVersion` counts every tag of every signature, using "all" for a null array |
| Ranking.IncrementAll | src/com/pnf/androsig/apply/matcher/DatabaseMatcher2.java:306-308 | incrementing a signature's tags extends the counts by exactly those tags |
| Ranking.UnionMembers | src/com/pnf/androsig/apply/matcher/DatabaseMatcher2.java:311-319 | a difference is in the union exactly when some candidate has it |
| Ranking.TableAdd | src/com/pnf/androsig/apply/matcher/DatabaseMatcher2.java:313-318 | adding one difference of candidate i puts i into that key's set |
| Ranking.TableEmptyStart | src/com/pnf/androsig/apply/matcher/DatabaseMatcher2.java:311-319 | a candidate without differences leaves `diffMatch` as it is |
| Ranking.AddDiffs | src/com/pnf/androsig/apply/matcher/DatabaseMatcher2.java:311-319 | the loop over a candidate's counts adds that candidate under each of its differences |
| Ranking.AllDiffs | src/com/pnf/androsig/apply/matcher/DatabaseMatcher2.java:296-320 | one difference set per candidate, each the candidate's differences |
| Ranking.DiffMatch | src/com/pnf/androsig/apply/matcher/DatabaseMatcher2.java:295-320 | `diffMatch` maps each difference to exactly the candidates having it |
| Ranking.FirstKey | src/com/pnf/androsig/apply/matcher/DatabaseMatcher2.java:321 | `firstKey` of a non-empty map is a key no larger than any other |
| Ranking.MinDiffUnique | src/com/pnf/androsig/apply/matcher/DatabaseMatcher2.java:321 | the smallest difference is unique |
| Ranking.WinnersReachMin | src/com/pnf/androsig/apply/matcher/DatabaseMatcher2.java:321 | the winners are exactly the candidates having the smallest difference |
| Ranking.TableEmptyIff | src/com/pnf/androsig/apply/matcher/DatabaseMatcher2.java:295-320 | the table is empty exactly when every difference set is |
| Ranking.TableMin | src/com/pnf/androsig/apply/matcher/DatabaseMatcher2.java:321 | the first key is some candidate's difference, bounds all differences, and maps to exactly the candidates having it |
| Ranking.TableEmptyIsNoDiffs | src/com/pnf/androsig/apply/matcher/DatabaseMatcher2.java:295-321 | `diffMatch` is empty exactly when no candidate has a difference |
| Ranking.TableMinIsMinDiff | src/com/pnf/androsig/apply/matcher/DatabaseMatcher2.java:321 | the first key of `diffMatch` is the smallest difference, and its set holds the candidates reaching it |
| Ranking.WinnersAreReaching | src/com/pnf/androsig/apply/matcher/DatabaseMatcher2.java:321 | the winners are the candidates reaching the smallest difference, and there is at least one |
| Ranking.WinnersEqReaching | src/com/pnf/androsig/apply/matcher/DatabaseMatcher2.java:321 | the winners are the candidates reaching the smallest difference |
| Ranking.ReachingNonEmpty | src/com/pnf/androsig/apply/matcher/DatabaseMatcher2.java:321 | some candidate reaches the smallest difference |
| Ranking.TiedCandidates | src/com/pnf/androsig/apply/matcher/DatabaseMatcher2.java:295-321 | nothing exactly when no candidate has a per-version count; otherwise the non-empty set of candidates closest to the binary's method count |
| Ranking.Enumerate | src/com/pnf/androsig/apply/matcher/DatabaseMatcher2.java:321 | `new ArrayList<>(set)` lists each member of the set once |
| Ranking.CommonClassName | src/com/pnf/androsig/apply/matcher/DatabaseMatcher2.java:327-338 | a class name is found exactly when all tied candidates share one, and it is then theirs |
| Ranking.FirstIn | src/com/pnf/androsig/apply/matcher/DatabaseMatcher2.java:355-362 | returns a tied candidate whose file is among the given files, or none exactly when no tied candidate's file is |
| Ranking.BreakTie | src/com/pnf/androsig/apply/matcher/DatabaseMatcher2.java:326-369 | the pick is a tied candidate. The shortcut is taken exactly outside the first round, when all tied candidates share a class name and one sits in that name's known file. Strict mode otherwise picks nothing and permissive mode always picks, preferring a file in use |
| Ranking.Rank | src/com/pnf/androsig/apply/matcher/DatabaseMatcher2.java:286-369 | no pick from no candidate; the only candidate from one. A pick from several is a winner of the smallest difference, and none when no candidate has a count. A single winner is picked without the shortcut. An unresolved tie follows `BreakTie` |
| InnerClasses.ParentIsShallower | src/com/pnf/androsig/apply/matcher/DatabaseMatcher2.java:424-426 | an enclosing-class name is one nesting level less than the name it came from |
| InnerClasses.LastSegment | src/com/pnf/androsig/apply/matcher/DatabaseMatcher2.java:464 | the last segment starts with `$` and ends the name |
| InnerClasses.LadderLength | src/com/pnf/androsig/apply/matcher/DatabaseMatcher2.java:439-441 | the walk up both names has one step per nesting level they share |
| InnerClasses.LadderDepths | src/com/pnf/androsig/apply/matcher/DatabaseMatcher2.java:439-441 | step k of the walk sits k levels above both names |
| InnerClasses.CountZero | src/com/pnf/androsig/apply/matcher/DatabaseMatcher2.java:416-419 | a name has no `$` exactly when it is not nested |
| InnerClasses.AnyClashOnLadder | src/com/pnf/androsig/apply/matcher/DatabaseMatcher2.java:439-461 | walking up meets a conflict exactly when some step of the walk has one |
| InnerClasses.AncestorConflict | src/com/pnf/androsig/apply/matcher/DatabaseMatcher2.java:439-461 | the first loop reports a conflict exactly when an ancestor is matched to another name, or the library ancestor belongs to another class |
| InnerClasses.LevelMatchesShape | src/com/pnf/androsig/apply/matcher/DatabaseMatcher2.java:462-470 | the second loop records at most one class match per level, and only for a level whose last segments differ |
| InnerClasses.LevelMatchesAfter | src/com/pnf/androsig/apply/matcher/DatabaseMatcher2.java:462-470 | the second loop only appends to the context log |
| InnerClasses.SegmentMatches | src/com/pnf/androsig/apply/matcher/DatabaseMatcher2.java:462-470 | the loop's events are the level matches of the two names |
| MatchState.InnerCandidatesMembers | src/com/pnf/androsig/apply/matcher/DatabaseMatcher2.java:224-225 | the stream filter keeps exactly the candidates passing `isInnerClassCandidate` |
| MatchState.KeptNamesNoMatchedClass | src/com/pnf/androsig/apply/matcher/DatabaseMatcher2.java:374-378 | a kept inner candidate never names a binary class that is already matched |
| MatchState.UnmatchedParentWaits | src/com/pnf/androsig/apply/matcher/DatabaseMatcher2.java:238-243 | an inner class whose parent is unmatched is deferred in the first round and the strict pass, and otherwise searched without a prefix |
| MatchState.ResolvedIsOnlyCandidate | src/com/pnf/androsig/apply/matcher/DatabaseMatcher2.java:209-229 | a resolved inner class has a matched parent with a file. The class match recorded names the one library class left after the merge, the version filter and the inner-candidate filter |
| MatchState.ValuesOfKeys | src/com/pnf/androsig/apply/matcher/DatabaseMatcher2.java:490 | `classPathMethod.values()` gives each key's signature, one per key |
| MatchState.ParamEventsExact | src/com/pnf/androsig/apply/matcher/DatabaseMatcher2.java:509-519 | a parameter match is reported for exactly those methods whose binary prototype differs from the library one |
| MatchState.InnerMismatchDropped | src/com/pnf/androsig/apply/matcher/DatabaseMatcher2.java:416-432 | an inner library class is dropped, its class files removed, for a top-level binary class, or when the parents differ in the first round |
| MatchState.ConflictDropped | src/com/pnf/androsig/apply/matcher/DatabaseMatcher2.java:433-470 | with different parents outside the first round, the candidate is dropped exactly on an ancestor conflict; otherwise the level matches are recorded |
| MatchState.InnerChecksFrame | src/com/pnf/androsig/apply/matcher/DatabaseMatcher2.java:416-473 | the inner checks only touch the two logs, and a candidate that goes on leaves the file log alone |
| MatchState.OutcomeFollowsGate | src/com/pnf/androsig/apply/matcher/DatabaseMatcher2.java:475-528 | no methods ends storing; the gate's refusal rolls back; a commit happens exactly when the gate and `addVersions` both accept |
| MatchState.UnrenamableUntouched | src/com/pnf/androsig/apply/matcher/DatabaseMatcher2.java:479-486 | a blank-named or do-not-rename method is never written to either method table |
| MatchState.GateRejectionRollsBack | src/com/pnf/androsig/apply/matcher/DatabaseMatcher2.java:521-527 | on rejection every method of the candidate is gone from both tables, all others are kept and `matchedClasses` is untouched |
| MatchState.StoreMethodsCases | src/com/pnf/androsig/apply/matcher/DatabaseMatcher2.java:475-528 | the state after each of the four endings |
| MatchState.StagedTables | src/com/pnf/androsig/apply/matcher/DatabaseMatcher2.java:479-493 | staging adds the renamable methods to both tables and changes no other table |
| MatchState.CommitTables | src/com/pnf/androsig/apply/matcher/DatabaseMatcher2.java:494-519 | a commit leaves the method tables and the flags alone |
| MatchState.CommittedStaged | src/com/pnf/androsig/apply/matcher/DatabaseMatcher2.java:488-520 | a committed candidate is committed over the staged state, which holds its renamable methods |
| MatchState.CommitRecords | src/com/pnf/androsig/apply/matcher/DatabaseMatcher2.java:479-506 | after a commit the class maps to the library class, is appended to its duplicate group with all its method ids recorded, and every renamable method carries its library name and signature |
| MatchState.OnlyCommitMatches | src/com/pnf/androsig/apply/matcher/DatabaseMatcher2.java:415-529 | only a commit matches the class or touches the duplicate tables |
| MatchState.VersionsRejectedKeepsMethods | src/com/pnf/androsig/apply/matcher/DatabaseMatcher2.java:490-493 | when `addVersions` refuses, the class stays unmatched but the renamable methods stay written |
| MatchState.StorePreservesDup | src/com/pnf/androsig/apply/matcher/DatabaseMatcher2.java:495-506 | storing a candidate for an unmatched class keeps the duplicate tables consistent with the matches |
| MatchState.StoreRecords | src/com/pnf/androsig/apply/matcher/DatabaseMatcher2.java:495-505 | storing never overwrites a class match, adds at most the class itself, records it in its group, and only grows groups |
| MatchState.StoreMethodsRecords | src/com/pnf/androsig/apply/matcher/DatabaseMatcher2.java:495-505 | the same for the method-storing part alone |
| MatchState.StoreKeepsFlags | src/com/pnf/androsig/apply/matcher/DatabaseMatcher2.java:415-529 | storing never changes the stable flag or the caller lists |
| MatchState.StoreMethodsKeepsFlags | src/com/pnf/androsig/apply/matcher/DatabaseMatcher2.java:475-528 | the same for the method-storing part alone |
| MatchState.StorePreservesRecorded | src/com/pnf/androsig/apply/matcher/DatabaseMatcher2.java:495-505 | each class matched during the passes stays recorded in its duplicate group |
| MatchState.DupAfterCommit | src/com/pnf/androsig/apply/matcher/DatabaseMatcher2.java:495-506 | recording a new class in its group keeps the duplicate tables consistent |
| Merging.MergeKeeps | src/com/pnf/androsig/apply/matcher/DatabaseMatcher2.java:128-159 | the context merge never changes or removes a match and only appends to the context log |
| Merging.MergeSources | src/com/pnf/androsig/apply/matcher/DatabaseMatcher2.java:132-137 | every new match comes from a context entry naming that id, with that entry's value |
| Merging.MergeInvalidations | src/com/pnf/androsig/apply/matcher/DatabaseMatcher2.java:138-142 | every invalidation is of an entry whose id is matched to a different name |
| Merging.MergeAppend | src/com/pnf/androsig/apply/matcher/DatabaseMatcher2.java:128-144 | merging a longer order is merging its tail after its head |
| Merging.MergeFills | src/com/pnf/androsig/apply/matcher/DatabaseMatcher2.java:129-142 | a valid entry for a resolvable id leaves that id matched. An unmatched id gets the entry's value; a conflicting prior match invalidates the entry |
| Merging.ClassesMergedKeeps | src/com/pnf/androsig/apply/matcher/DatabaseMatcher2.java:128-144 | the class merge keeps every class match and the duplicate-table consistency |
| Merging.MethodsMergedKeeps | src/com/pnf/androsig/apply/matcher/DatabaseMatcher2.java:145-159 | the method merge keeps every method match, leaves the class matches alone and keeps consistency |
| Merging.RollbackSeparates | src/com/pnf/androsig/apply/matcher/DatabaseMatcher2.java:162-177 | both duplicate tables end empty; no group keeps two classes. Every class of a group whose size is not one is unmatched, with all its recorded methods removed from both tables |
| Merging.RollbackKeeps | src/com/pnf/androsig/apply/matcher/DatabaseMatcher2.java:162-177 | the one class of a group of size one keeps its match, and so does every class in no group |
| Merging.ClashesUnmatched | src/com/pnf/androsig/apply/matcher/DatabaseMatcher2.java:162-174 | two classes that claimed the same library class are both unmatched after the round, with the methods recorded for them |
| Matcher.ClashesResolved | src/com/pnf/androsig/apply/matcher/DatabaseMatcher2.java:110-177 | no two classes matched during a round to the same library class survive the round |
| Refinement.AgreeOn | src/com/pnf/androsig/apply/matcher/DatabaseMatcher2.java:755-777 | once a name is agreed, it stays agreed exactly when every later file answers that name; otherwise the result is null |
| Refinement.AgreeFromStart | src/com/pnf/androsig/apply/matcher/DatabaseMatcher2.java:755-777 | from the empty start, a non-empty name results exactly when every file answers the same non-empty name; the name and signature are then the first file's |
| Refinement.RefineCommit | src/com/pnf/androsig/apply/matcher/DatabaseMatcher2.java:812-824 | a method is renamed only after a non-blank name agreed by every file and exactly one collected signature, from the hash phase or, outside the first round, the name phase |
| Refinement.RefineContext | src/com/pnf/androsig/apply/matcher/DatabaseMatcher2.java:825-827 | a name goes to the context only outside the first round, after a blank hash phase that collected one signature and a name phase that collected a second one |
| Refinement.RefineNoFiles | src/com/pnf/androsig/apply/matcher/DatabaseMatcher2.java:745-828 | with no candidate file, nothing is found |
| Refinement.SweepStepProgress | src/com/pnf/androsig/apply/matcher/DatabaseMatcher2.java:729-829 | one method's step keeps every method match, only appends to the context log, and adds at most one signature. Each signature added is an unmatched method fewer |
| Refinement.SweepProgress | src/com/pnf/androsig/apply/matcher/DatabaseMatcher2.java:729-829 | the same for a whole sweep |
| Refinement.SweepStepAdds | src/com/pnf/androsig/apply/matcher/DatabaseMatcher2.java:812-824 | a method newly matched by a step is that step's internal, unmatched method, with a non-blank name and its signature |
| Refinement.SweepAdds | src/com/pnf/androsig/apply/matcher/DatabaseMatcher2.java:729-829 | methods newly matched by a sweep are internal methods of the class, with a non-blank name and a signature of that name |
| Refinement.SweepGrows | src/com/pnf/androsig/apply/matcher/DatabaseMatcher2.java:729-829 | a sweep grows the state by renaming methods of the class only |
| Refinement.RepeatFacts | src/com/pnf/androsig/apply/matcher/DatabaseMatcher2.java:726-831 | the do-while, which ends because each repeat has fewer unmatched methods, grows the state by renaming methods of the class only |
| Refinement.AlreadyStepFacts | src/com/pnf/androsig/apply/matcher/DatabaseMatcher2.java:671-693 | one method adds a signature exactly when it is matched, and can only add its own missing `matchedSigMethods` entry |
| Refinement.AlreadyCount | src/com/pnf/androsig/apply/matcher/DatabaseMatcher2.java:668-695 | `getAlreadyMatched` lists one signature per matched method |
| Refinement.AlreadyState | src/com/pnf/androsig/apply/matcher/DatabaseMatcher2.java:668-695 | it only adds `matchedSigMethods` entries, for matched methods of the class that lacked one |
| Refinement.UsedOnlyMembers | src/com/pnf/androsig/apply/matcher/DatabaseMatcher2.java:847-852 | the used-file filter keeps exactly the files in use |
| Refinement.CandidateFilesFacts | src/com/pnf/androsig/apply/matcher/DatabaseMatcher2.java:837-863 | without a known file, nothing exactly when the class is in no library. The files are the library's files, narrowed to those in use when there are several and some are in use |
| Refinement.RenameClassFacts | src/com/pnf/androsig/apply/matcher/DatabaseMatcher2.java:705-831 | the work on one class renames methods of that class only and never changes a match |
| Refinement.RenameAllFacts | src/com/pnf/androsig/apply/matcher/DatabaseMatcher2.java:704-832 | the loop over the matched classes renames methods of those classes only |
| Callers.CallsKeys | src/com/pnf/androsig/apply/matcher/DatabaseMatcher2.java:593-599 | every caller's signature is a key of `calls`, and every key holds the count of a caller with that signature |
| Callers.CallsOfDistinct | src/com/pnf/androsig/apply/matcher/DatabaseMatcher2.java:593-599 | callers with distinct signatures each keep their own count |
| Callers.CallerCandidatesMembers | src/com/pnf/androsig/apply/matcher/DatabaseMatcher2.java:636-641 | the candidates are exactly the library signatures of the same method that record a caller |
| Callers.CommonTargetIff | src/com/pnf/androsig/apply/matcher/DatabaseMatcher2.java:650-663 | the loop answers a target exactly when there is a signature and all of them expect it |
| Callers.BestCallersCases | src/com/pnf/androsig/apply/matcher/DatabaseMatcher2.java:625-666 | `getBestCallers` answers callers exactly when the class has a library file and either one candidate expects them, or several do and all best ones agree on them |
| Callers.CallerEventsCases | src/com/pnf/androsig/apply/matcher/DatabaseMatcher2.java:600-620 | a single caller match is saved only for one expected and one observed caller with equal counts. A partial match is asked for whenever known expected callers are not both single. Nothing is saved without expected callers |
| Callers.CallerPassShape | src/com/pnf/androsig/apply/matcher/DatabaseMatcher2.java:590-621 | the pass gives at most one event per matched method, each a caller event |
| Matcher.DatabaseMatcher.constructor | src/com/pnf/androsig/apply/matcher/DatabaseMatcher2.java:103-107 | a new matcher starts with every table empty |
| Matcher.DatabaseMatcher.CheckInner | src/com/pnf/androsig/apply/matcher/DatabaseMatcher2.java:416-473 | the inner-class checks, as the state and outcome of `InnerChecks` |
| Matcher.DatabaseMatcher.StageMethods | src/com/pnf/androsig/apply/matcher/DatabaseMatcher2.java:475-486 | lists every key once and writes the renamable methods into both tables |
| Matcher.DatabaseMatcher.UnstageMethods | src/com/pnf/androsig/apply/matcher/DatabaseMatcher2.java:523-526 | removes every listed method from both tables |
| Matcher.DatabaseMatcher.CommitClass | src/com/pnf/androsig/apply/matcher/DatabaseMatcher2.java:494-519 | matches the class, appends it to its duplicate group, records its methods and reports the parameter matches |
| Matcher.DatabaseMatcher.StoreFinalCandidate | src/com/pnf/androsig/apply/matcher/DatabaseMatcher2.java:415-529 | `storeFinalCandidate`, as the state and outcome of `StoreFinal` for the order its keys were taken in |
| Matcher.DatabaseMatcher.InnerGate | src/com/pnf/androsig/apply/matcher/DatabaseMatcher2.java:209-244 | the inner-class gate: defer, record a resolved class match, or search with or without a prefix |
| Matcher.DatabaseMatcher.Choose | src/com/pnf/androsig/apply/matcher/DatabaseMatcher2.java:280-371 | the pick is a best-scoring candidate of all files, the only one when there is one. It is recorded as the class's file unless it is the file already known for its name; only the file log changes |
| Matcher.DatabaseMatcher.GetClass | src/com/pnf/androsig/apply/matcher/DatabaseMatcher2.java:197-372 | `ClassChosen`: only the two logs change. There is no answer and no change for a class without methods or a deferred one. A resolved inner class only logs its match. Otherwise the search result is ranked as in `Choose` |
| Matcher.DatabaseMatcher.StoreClass | src/com/pnf/androsig/apply/matcher/DatabaseMatcher2.java:188-192 | `found` exactly when `getClass` answered a candidate. The step is `PassStep`: the state after `getClass`, then, on an answer, exactly `StoreFinal` of that answer for the key order taken. Existing matches are kept, at most this class is added, and consistency is kept |
| Matcher.DatabaseMatcher.StoreFinalCandidates | src/com/pnf/androsig/apply/matcher/DatabaseMatcher2.java:180-195 | the pass is traced class by class (`PassTrace`): a class matched by then is skipped, any other goes through `getClass` and, on an answer, `storeFinalCandidate`. `found` is exactly "some class got an answer". Matches are never overwritten, and only classes of the binary are added |
| Matcher.DatabaseMatcher.VisitClass | src/com/pnf/androsig/apply/matcher/DatabaseMatcher2.java:184-192 | one class of the loop: the pass trace grows by exactly its `PassStep`. `stored` says it got an answer. Only that class can become matched |
| Matcher.NoPickOnlyLogs | src/com/pnf/androsig/apply/matcher/DatabaseMatcher2.java:180-195 | a pass in which `getClass` answers no class changes only the two logs |
| Matcher.NoPickNoSecondPass | src/com/pnf/androsig/apply/matcher/DatabaseMatcher2.java:118-125 | a strict pass that stores nothing means no permissive pass, and the passes change only the logs and the stable flag |
| Matcher.DatabaseMatcher.MergeClassEntry | src/com/pnf/androsig/apply/matcher/DatabaseMatcher2.java:129-142 | one class-context entry merged first-writer-wins |
| Matcher.DatabaseMatcher.MergeContextClasses | src/com/pnf/androsig/apply/matcher/DatabaseMatcher2.java:128-144 | the class context merged in the order its entries were taken |
| Matcher.DatabaseMatcher.MergeContextMethods | src/com/pnf/androsig/apply/matcher/DatabaseMatcher2.java:145-159 | the method context merged in the order its entries were taken |
| Matcher.DatabaseMatcher.DropMethods | src/com/pnf/androsig/apply/matcher/DatabaseMatcher2.java:168-171 | removes exactly the listed methods from both tables |
| Matcher.DatabaseMatcher.DropGroup | src/com/pnf/androsig/apply/matcher/DatabaseMatcher2.java:164-172 | removes exactly the group's classes and their recorded methods |
| Matcher.DatabaseMatcher.DropName | src/com/pnf/androsig/apply/matcher/DatabaseMatcher2.java:162-174 | one more group name handled: the tables lose that group's classes and methods when its size is not one |
| Matcher.DatabaseMatcher.Survivors | src/com/pnf/androsig/apply/matcher/DatabaseMatcher2.java:162-174 | the tables without every class of a group whose size is not one, and without those classes' methods |
| Matcher.DatabaseMatcher.RemoveDuplicates | src/com/pnf/androsig/apply/matcher/DatabaseMatcher2.java:162-177 | the state after the duplicate rollback and the clearing of both tables |
| Matcher.DatabaseMatcher.MergeAndRollback | src/com/pnf/androsig/apply/matcher/DatabaseMatcher2.java:128-177 | both context merges, then the rollback |
| Matcher.DatabaseMatcher.StorePasses | src/com/pnf/androsig/apply/matcher/DatabaseMatcher2.java:118-125 | `StoreRounds`: the strict pass, the stable flag set, and the permissive pass exactly when this is not the first round and the strict pass stored some candidate. The final state is the last pass's. Earlier matches are kept and the state stays consistent |
| Matcher.DatabaseMatcher.StoreMatchedClassesAndMethods | src/com/pnf/androsig/apply/matcher/DatabaseMatcher2.java:110-178 | an empty binary only resets the caller lists. Otherwise `s1` is the result of `StoreRounds` from the state with reset caller lists, and the final state is its merges and rollback. No two classes matched in the round to the same library class survive |
| Matcher.DatabaseMatcher.AgreeFiles | src/com/pnf/androsig/apply/matcher/DatabaseMatcher2.java:755-777 | the loop over the files computes the agreement `Agree` |
| Matcher.DatabaseMatcher.RefineMethod | src/com/pnf/androsig/apply/matcher/DatabaseMatcher2.java:745-810 | both phases for one method give the decision `Refine` |
| Matcher.DatabaseMatcher.GetCandidateFilesForClass | src/com/pnf/androsig/apply/matcher/DatabaseMatcher2.java:837-863 | answers `CandidateFiles` for the current file log |
| Matcher.DatabaseMatcher.GetAlreadyMatched | src/com/pnf/androsig/apply/matcher/DatabaseMatcher2.java:668-695 | the signatures and state of `AlreadyFrom` |
| Matcher.DatabaseMatcher.SweepOne | src/com/pnf/androsig/apply/matcher/DatabaseMatcher2.java:745-828 | one eligible method's step on copies of the tables |
| Matcher.DatabaseMatcher.SweepMethods | src/com/pnf/androsig/apply/matcher/DatabaseMatcher2.java:729-829 | one pass of the do-while body, with the candidate files loaded lazily |
| Matcher.DatabaseMatcher.SweepTables | src/com/pnf/androsig/apply/matcher/DatabaseMatcher2.java:729-829 | the same pass on copies of the tables |
| Matcher.DatabaseMatcher.SweepRest | src/com/pnf/androsig/apply/matcher/DatabaseMatcher2.java:729-829 | the rest of a pass once the files are known |
| Matcher.DatabaseMatcher.RenameClassMethods | src/com/pnf/androsig/apply/matcher/DatabaseMatcher2.java:705-831 | the work on one matched class, as `RenameClass` |
| Matcher.DatabaseMatcher.RenameMatchedClasses | src/com/pnf/androsig/apply/matcher/DatabaseMatcher2.java:704-832 | every matched class taken once, each swept under its name |
| Matcher.DatabaseMatcher.PostProcessRenameClasses | src/com/pnf/androsig/apply/matcher/DatabaseMatcher2.java:698-835 | the caller lists loaded if empty, then every matched class swept |
| Matcher.DatabaseMatcher.GetBestCallers | src/com/pnf/androsig/apply/matcher/DatabaseMatcher2.java:625-666 | answers `BestCallers` |
| Matcher.DatabaseMatcher.BinaryCalls | src/com/pnf/androsig/apply/matcher/DatabaseMatcher2.java:593-599 | the calls map over the callers, taken once each in some order |
| Matcher.DatabaseMatcher.CallerEvent | src/com/pnf/androsig/apply/matcher/DatabaseMatcher2.java:600-620 | the event of the caller rule for one matched signature |
| Matcher.DatabaseMatcher.MethodCallerEvent | src/com/pnf/androsig/apply/matcher/DatabaseMatcher2.java:591-620 | one matched method's calls and event |
| Matcher.DatabaseMatcher.CallerContext | src/com/pnf/androsig/apply/matcher/DatabaseMatcher2.java:590-621 | the context log after every matched signature, taken once each |
| Matcher.DatabaseMatcher.PostProcessRenameMethods | src/com/pnf/androsig/apply/matcher/DatabaseMatcher2.java:585-623 | the caller lists loaded if empty; only they and the context log change, by the caller pass |
| SignatureFiles.SaveValue | src/com/pnf/androsig/apply/model/SignatureFile.java:152-159 | `saveValue` appends exactly one element to the list at the key, creating it if absent; other keys are unchanged |
| SignatureFiles.FindEqual | src/com/pnf/androsig/apply/model/SignatureFile.java:128-136 | the search finds a listed signature of the same identity, or none exactly when no listed one has it |
| SignatureFiles.AddRevision | src/com/pnf/androsig/apply/model/SignatureFile.java:131 | `addRevision` keeps every identity |
| SignatureFiles.Existing | src/com/pnf/androsig/apply/model/SignatureFile.java:127-136 | the class list's signature with the same identity, if one exists |
| SignatureFiles.Representative | src/com/pnf/androsig/apply/model/SignatureFile.java:127-136 | the representative has the new signature's identity |
| SignatureFiles.AfterStoreMethodHash | src/com/pnf/androsig/apply/model/SignatureFile.java:123-146 | `storeMethodHash` keeps the index well formed, every identity and the meta lists |
| SignatureFiles.StoreMethodHashSteps | src/com/pnf/androsig/apply/model/SignatureFile.java:123-146 | the merge case adds the revision to the existing signature and does not grow the class list. The new case appends the signature. A hash list gets only a representative it does not hold |
| SignatureFiles.AfterStoreMeta | src/com/pnf/androsig/apply/model/SignatureFile.java:94-105 | the meta step keeps identities and leaves the other three lists alone |
| SignatureFiles.NewRecordValid | src/com/pnf/androsig/apply/model/SignatureFile.java:87-105 | a fresh signature, meta-filed or not, is valid to store and in no class list yet |
| SignatureFiles.StoreMethodHashValid | src/com/pnf/androsig/apply/model/SignatureFile.java:123-146 | a class's list never holds two `equalsMethodSig`-equal entries, and hash lists hold only class representatives without repetition |
| SignatureFiles.StoreMethodHashIndexes | src/com/pnf/androsig/apply/model/SignatureFile.java:137-145 | afterwards the tight, loose and class lists each hold the representative without repetition. A merge adds the revision and leaves the class lists; a new signature is appended to its class list |
| SignatureFiles.HashListsSave | src/com/pnf/androsig/apply/model/SignatureFile.java:137-142 | adding to a hash list a class representative it lacks keeps every hash list free of repetition and of non-representatives |
| SignatureFiles.ClassListsSave | src/com/pnf/androsig/apply/model/SignatureFile.java:143-145 | appending a signature whose identity differs from every one already in its class list keeps each class list free of equal entries |
| SignatureFiles.StoreMetaValid | src/com/pnf/androsig/apply/model/SignatureFile.java:94-105 | the meta step keeps the index valid and changes no class-list membership |
| SignatureFiles.CheckMarker | src/com/pnf/androsig/apply/model/SignatureFile.java:116-121 | a value exactly when the line starts with the marker and `=` |
| SignatureFiles.CheckMarkerRoundTrip | src/com/pnf/androsig/apply/model/SignatureFile.java:116-121 | a value written without surrounding whitespace is read back unchanged |
| SignatureFiles.CheckMarkerExample | src/com/pnf/androsig/apply/model/SignatureFile.java:116-121 | `checkMarker("version= 3 ", "version")` is "3" |
| SignatureFiles.Alloc | src/com/pnf/androsig/apply/model/SignatureFile.java:87-89 | a parsed line allocates exactly one new signature |
| SignatureFiles.AllocValid | src/com/pnf/androsig/apply/model/SignatureFile.java:87-89 | the new signature leaves the index valid and is in no class list |
| SignatureFiles.AfterLine | src/com/pnf/androsig/apply/model/SignatureFile.java:58-111 | one line keeps the index well formed |
| SignatureFiles.RecordLineValid | src/com/pnf/androsig/apply/model/SignatureFile.java:87-109 | a first-form line keeps the index valid |
| SignatureFiles.MetaLineValid | src/com/pnf/androsig/apply/model/SignatureFile.java:87-109 | a second-form line keeps the index valid |
| SignatureFiles.RecordLine | src/com/pnf/androsig/apply/model/SignatureFile.java:87-110 | a record line allocates a signature, files it in the meta list for the second form, stores it and counts it |
| SignatureFiles.AfterLineValid | src/com/pnf/androsig/apply/model/SignatureFile.java:58-111 | every kind of line keeps the index valid |
| SignatureFiles.AfterLines | src/com/pnf/androsig/apply/model/SignatureFile.java:58-111 | the loop keeps the index well formed |
| SignatureFiles.AfterLinesValid | src/com/pnf/androsig/apply/model/SignatureFile.java:58-111 | loading keeps the index valid, whatever the lines say |
| SignatureFiles.AfterLineCount | src/com/pnf/androsig/apply/model/SignatureFile.java:58-110 | a line adds one to the count exactly when it parses in either record form |
| SignatureFiles.CountIsRecordLines | src/com/pnf/androsig/apply/model/SignatureFile.java:58-111 | `allSignatureCount` grows by the number of trimmed, non-blank, non-`;` lines that parse in either form |
| SignatureFiles.AfterLineInfo | src/com/pnf/androsig/apply/model/SignatureFile.java:64-85 | only a metadata line changes the library info, by its markers |
| SignatureFiles.LaterMarkerWins | src/com/pnf/androsig/apply/model/SignatureFile.java:64-85 | after the loop each field holds the last marker's value, or its old value when no line carries the marker |
| SignatureFiles.SignatureFile.constructor | src/com/pnf/androsig/apply/model/SignatureFile.java:35-40 | a new file has empty lists, no library info and a zero count |
| SignatureFiles.SignatureFile.FindSharedSignature | src/com/pnf/androsig/apply/model/SignatureFile.java:128-136 | the loop finds the first listed signature of the same identity |
| SignatureFiles.SignatureFile.StoreMethodHash | src/com/pnf/androsig/apply/model/SignatureFile.java:123-146 | the index becomes `AfterStoreMethodHash` of the old one and stays valid |
| SignatureFiles.SignatureFile.StoreMeta | src/com/pnf/androsig/apply/model/SignatureFile.java:94-105 | the index becomes `AfterStoreMeta` of the old one and stays valid |
| SignatureFiles.SignatureFile.StoreRecord | src/com/pnf/androsig/apply/model/SignatureFile.java:87-110 | a parsed line allocated, meta-filed for the second form, stored and counted |
| SignatureFiles.SignatureFile.ReadLine | src/com/pnf/androsig/apply/model/SignatureFile.java:59-110 | one line, as `AfterLine` |
| SignatureFiles.SignatureFile.ReadLines | src/com/pnf/androsig/apply/model/SignatureFile.java:58-111 | the loop, as `AfterLines` from no library info |
| SignatureFiles.SignatureFile.LoadSignatures | src/com/pnf/androsig/apply/model/SignatureFile.java:42-114 | a second load and an unreadable file change nothing and report so. A load happens exactly on the first call with readable lines, and the index, count and info are then `AfterLines` |
| SignatureFiles.SignatureFile.HasSignaturesForClassname | src/com/pnf/androsig/apply/model/SignatureFile.java:227-229 | true exactly when the class has signatures |
| SignatureFiles.SignatureFile.GetSignaturesForClassname | src/com/pnf/androsig/apply/model/SignatureFile.java:232-247 | exact: the class's list or empty; prefix: the lists of every key starting with the name, each once, in some order |
| SignatureFiles.ExactIncludedInPrefix | src/com/pnf/androsig/apply/model/SignatureFile.java:232-247 | the exact result is included in the prefix result |
| SignatureFiles.ConcatContains | src/com/pnf/androsig/apply/model/SignatureFile.java:241-245 | each listed key's signatures are in the concatenation |
| SignatureFiles.SignatureFile.GetParent | src/com/pnf/androsig/apply/model/SignatureFile.java:250-259 | exactly the class's meta signatures named `<parent>`; empty for an unknown class |
| SignatureFiles.ParentsOf | src/com/pnf/androsig/apply/model/SignatureFile.java:255-256 | the filter keeps exactly the signatures named `<parent>` |
| SignatureFiles.PopulateAddsOnlyPath | src/com/pnf/androsig/apply/model/SignatureFile.java:268-307 | `populate` only adds the file's path, never under a null or empty key, and records it under every key of a signature line |
| SignatureFiles.Populate | src/com/pnf/androsig/apply/model/SignatureFile.java:261-309 | false, with nothing changed, for an unreadable file; otherwise each map becomes `Populated` of the lines |

## Left out

- DexUtilLocal, MatchingSearch, FileMatches, ContextMatches, SignatureHandler and
  MethodSignature are not part of this model. They are parameters (`Dex.Oracles`). The
  candidate search of `getClass` (lines 248-278: `processClass`, `processInnerClass`,
  `validateVersions` and the small-method search) is one such parameter, `search`.
- `DatabaseReference` and the file reading of `IO.readLinesSafe` are left out. The lines of a
  file are an input (`None` for an unreadable file). `MethodSignature.parse`, `parseNative`
  and `Conversion.stringToInt` are also inputs.
- The JEB host API is replaced by `Dex.Binary`: ids with a signature, a method list, a name,
  an internal flag, an instruction count and a prototype. `unit.getMethod` of an unknown id
  reads as an empty method (`NoMethod`), where the host would return null.
- Hash-map and hash-set iteration order is not modelled. Methods take keys in an arbitrary
  order and return it as a ghost output. This covers the context `entrySet` order, the
  `classPathMethod` order, the caller maps and `new ArrayList<>(set)` at line 321.
- `TreeMap.firstKey` on an empty `diffMatch` throws in the source. The model answers "no
  pick" (`Ranking.TiedCandidates` returns `None`).
- Floating point in `f` is exact real arithmetic. Cross-multiplication against the bar stands
  for the division. A zero total accepts, as Java's NaN or infinity does.
- Logging, the returned empty maps and the metrics getters are left out.
- The context merge reads a snapshot of the context entries. Entries that ContextMatches
  would add during the merge are not seen.
- `apkCallerLists` starts as an empty map here, where the source starts it as null.
  `storeMatchedClassesAndMethods` resets it first in both.
- `fileMatches.stable` is a field of the run state. The search oracle does not see it.
- The lazy loading of candidate files in the sweep is two loops: one that skips methods up
  to the first eligible one, and one over the rest with the files known.
- The source iterates `allMetaByClassname.get(cname)` and
  `allSignaturesByClassname.get(cname)` directly (SignatureFile.java:95 and :128), which throws
  for the first signature of a new class. The model reads an absent list as empty, as
  `saveValue` creates it lazily.
- `SignatureFiles.SignatureFile.StoreRecord` increments `allSignatureCount` before storing
  rather than after. Nothing between the two reads the count.
- MatchState.GateInner / Matcher.DatabaseMatcher.InnerGate: for an inner class whose
  parent is matched to the empty name and has a known file, the source calls
  `name.substring(0, name.length() - 1)` (DatabaseMatcher2.java:217) and throws
  StringIndexOutOfBoundsException. The model does not model that exception: it searches
  without an inner-class prefix, as it does when the parent has no file.
- `FileMatches.getMatchedClassFile` (DatabaseMatcher2.java:340, 631 and 713) is read as a pure
  query of the file log (`Dex.Oracles.matchedClassFile`). The source calls it at line 713
  partly to update FileMatches' class-to-file table. That update is not modelled, so a later
  `getFileFromClass` in the model does not see the binding. FileMatches.java is not part of
  this model.
- SignatureFiles.Populate: the path sets are Dafny sets. The source's `LinkedHashSet`s
  (SignatureFile.java:284, 293 and 302) also keep the order in which paths were added across
  files; that order is not kept.
- `MethodSignature.getCname`, `getMname`, `getPrototype`, `getShorty`, `getVersions`,
  `getCaller` and `getTargetCaller` are read as the fields of the `Dex.Sig` record. The
  accessors themselves, and the rest of MethodSignature, are not modelled.
- Matcher.DatabaseMatcher.GetClass: its own contract states only `Picked` (a best-scoring
  candidate and its file binding). The tie-break facts are proved on `Ranking.Rank`, which
  it calls.
- LibraryInfo's setters are modelled as the values they were given. The object's other
  contents are not modelled.
