# The repair loop's bookkeeping, in Dafny

This project models the deterministic core of an automated repair loop for a Spring Boot code base.
A *fixer* round reads the tail of an error log and indexes the project's `.java` files. It finds the
files that the log's stack frames name, plus their import/call neighbours, and sends them to a
language model. It then applies the `FILENAME:` / fenced-code blocks of the reply to the files and
the index. A *testing* round lists the relevant files as backed up and as they are now. It hands both
listings to a *validation* workflow: five analysis stages, then a final decision. It then folds the
verdict into the session state. A *router* ends the run on DEPLOY or NEEDS_REVIEW. After three retries
it restores the backed-up files and ends. Otherwise it counts a retry and goes back to the fixer.

Modules, one per part of the program:

- `Strings`: the Python string primitives used.
- `Json`: the values `json.loads` yields, with `dict.get` and `+`.
- `FileIndex`: index entries, building and refreshing the index.
  - The `FileIndex` class is the dictionary the loop mutates in place.
  - The `Disk` class is the file system.
- `FaultLocation`: the stack-frame scanner, the breadth-first fan-out, the relevant-file selection and
  the code context.
- `PatchApply`: the reply parser and the patch application.
- `Session`: the graph's state and the `// FILE:` listings.
- `FixerNode`, `TestingNode`, `MainGraph`: the three graph nodes and the loop that runs them.
- `Validation`: the JSON cleanup, the three-attempt call loop, the stage wrappers, the final decision
  and the workflow.

The language model, md5, the class/import/call regular expressions, `json.loads`, `str()`, the
clock and the key order of a parsed dictionary are function-valued parameters. The model's answers are functions from the attempt number to a
reply or a raised error.

## Model

| member | source | states |
|---|---|---|
| FileIndex.BuildFileEntryShape | nodes/fixer_node.py:52-68 | an entry records the path, the file's content and mtime, and md5 of that content; without a class declaration its class name is a prefix of the file's base name |
| FileIndex.Restrict | nodes/fixer_node.py:115 | the comprehension keeps the dictionary's order, has exactly the keys the dictionary shares with the names, and each value is the dictionary's own |
| FileIndex.Insert | nodes/fixer_node.py:71 | dict insertion: a new key goes last, an existing key keeps its place, the mapping gets the new value |
| FileIndex.BuildListing | nodes/fixer_node.py:70-71 | the built index is a well-formed dictionary whose keys are exactly the base names of the walk's `.java` paths |
| FileIndex.BuildListingEntries | nodes/fixer_node.py:70-71 | every entry was built from a `.java` path of the walk whose base name is its key, read from that path on disk |
| FileIndex.BuildListingLastWins | nodes/fixer_node.py:70-71 | of several paths with one base name, the last in the walk is the one indexed |
| FileIndex.FileIndex.Build | nodes/fixer_node.py:70-71 | the constructed index equals the specification `BuildListing` of the walk |
| FileIndex.FileIndex.Of | nodes/fixer_node.py:198-202 | an index kept in the state is taken up unchanged |
| FileIndex.RefreshedEntries | nodes/fixer_node.py:73-86 | refresh never adds a key, and keeps a key exactly when its entry's path still exists |
| FileIndex.RefreshPrunesDeleted | nodes/fixer_node.py:75-78 | an entry survives the refresh if and only if its file exists |
| FileIndex.RefreshLeavesUnchanged | nodes/fixer_node.py:79-84 | an entry whose mtime is unchanged, or whose content still hashes to its checksum, is kept as it was, stale mtime included |
| FileIndex.RefreshRebuildsChanged | nodes/fixer_node.py:79-85 | an entry that changes had both its mtime and its checksum changed, and is then rebuilt from disk in full |
| FileIndex.RefreshWithoutChanges | nodes/fixer_node.py:79-80 | with every path present under its stored mtime, refresh changes nothing |
| FileIndex.RefreshIdempotent | nodes/fixer_node.py:73-86 | refreshing twice against the same disk is refreshing once |
| FileIndex.SurvivingMembers | nodes/fixer_node.py:74-78 | the surviving keys are exactly the listed keys whose file exists, without repetitions |
| FileIndex.PartlyRefreshedChar | nodes/fixer_node.py:74-86 | after visiting a prefix of the keys, the loop's mapping is the refreshed mapping on the visited keys and the original on the rest |
| FileIndex.PartlyRefreshedAll | nodes/fixer_node.py:74-86 | once every key has been visited, the loop's mapping is the refreshed mapping |
| FileIndex.SurvivingValid | nodes/fixer_node.py:73-86 | the surviving keys, in order, with the refreshed mapping form a well-formed dictionary |
| FileIndex.RefreshLoop | nodes/fixer_node.py:74-86 | the delete-or-replace loop over a snapshot of the items leaves the surviving keys in order and the mapping the specification describes |
| FileIndex.FileIndex.Refresh | nodes/fixer_node.py:73-86 | refreshing in place leaves exactly the surviving keys, in their order, and the refreshed mapping, and keeps the dictionary well formed |
| FaultLocation.FileAndLine | nodes/fixer_node.py:88 | a match of `(\w+\.java):\d+\)` captures a word-character name ending in `.java` and ends after where it started |
| FaultLocation.MatchFrame | nodes/fixer_node.py:88 | a frame match captures a `.java` name and ends past its start |
| FaultLocation.ScanFramesNames | nodes/fixer_node.py:88-91 | every name `findall` collects ends in `.java` |
| FaultLocation.ExtractedNamesAreJava | nodes/fixer_node.py:90-91 | every file name taken from an error log is a `.java` name |
| FaultLocation.NeighborFileJava | nodes/fixer_node.py:103 | the neighbour file always ends in `.java`, a symbol already ending in `.java` is kept, and the mapping is idempotent |
| FaultLocation.AddNeighbors | nodes/fixer_node.py:102-105 | the inner loop adds exactly the neighbour files that are indexed and not yet expanded |
| FaultLocation.NextFrontier | nodes/fixer_node.py:97-105 | one round's new frontier is the indexed neighbours of the frontier minus what is expanded |
| FaultLocation.RoundsWithin | nodes/fixer_node.py:93-108 | expanding only the frontier, round by round, reaches exactly the files within k steps of the seeds |
| FaultLocation.FanOut | nodes/fixer_node.py:93-108 | `fan_out` returns exactly the files reachable from the seeds in at most `depth` steps (just the seeds for a negative depth) |
| FaultLocation.WithinZero | nodes/fixer_node.py:94-96 | depth 0 returns exactly the seeds |
| FaultLocation.WithinSeeds | nodes/fixer_node.py:94 | every seed is in the result, indexed or not |
| FaultLocation.WithinAddsIndexed | nodes/fixer_node.py:104-107 | every name added beyond the seeds is a key of the index |
| FaultLocation.WithinMonotone | nodes/fixer_node.py:96-107 | a larger depth never yields fewer names |
| FaultLocation.GetRelevantFiles | nodes/fixer_node.py:110-115 | the whole index when the log names no file; otherwise the index restricted to the depth-2 fan-out of the named files |
| FaultLocation.RelevantFilesFromIndex | nodes/fixer_node.py:115 | a selection has exactly the index keys among the selected names, with the index's own entries |
| FaultLocation.CodeContextAppend | nodes/fixer_node.py:117-121 | the code context of two listings is the concatenation of their contexts |
| FaultLocation.CodeContextHasSection | nodes/fixer_node.py:117-121 | each file contributes its `--- name ---` section at its place in the order |
| PatchApply.CodeEnd | nodes/fixer_node.py:155-157 | a code block runs to the first fence at or after its start, or to the end of the reply |
| PatchApply.ParseMarkerOverrides | nodes/fixer_node.py:135-139 | the last marker before a fence wins: once a marker is read, what was pending is irrelevant |
| PatchApply.ParseSkipsUnnamedFence | nodes/fixer_node.py:141-145 | a fence with no pending file name is skipped alone |
| PatchApply.MarkerLineName | nodes/fixer_node.py:135-136 | a `FILENAME: name` line is a marker, and the name after the first ':' is taken, stripped |
| PatchApply.ParseMarkerStep | nodes/fixer_node.py:135-139 | a marker line replaces the pending name |
| PatchApply.ParsePlainStep | nodes/fixer_node.py:178 | any other line is passed over, keeping the pending name |
| PatchApply.ParseFenceStep | nodes/fixer_node.py:153-176 | a fence with a pending name yields one block of the lines up to the next fence, joined with newlines; that fence is consumed and the pending name cleared |
| PatchApply.ParseShift | nodes/fixer_node.py:132-178 | the parser reads a run of lines the same way wherever it sits in the reply |
| PatchApply.JoinLines | nodes/fixer_node.py:129 | joining the split lines gives the reply back |
| PatchApply.ParseFormatLines | nodes/fixer_node.py:233-237 | lines in the requested `FILENAME:` / fenced format are parsed back into exactly their blocks |
| PatchApply.FormatReplyRoundTrip | nodes/fixer_node.py:129-178 | a reply written in the requested format parses into exactly the blocks it was written from |
| PatchApply.JavaFenceIsFence | nodes/fixer_node.py:141 | testing for "```java" or "```" is testing for "```" |
| PatchApply.MatchIndex | nodes/fixer_node.py:148-151 | the match found is a key with the same base name, ignoring case |
| PatchApply.MatchIndexFirst | nodes/fixer_node.py:148-151 | the first matching key in order wins, and a match is found whenever one exists |
| PatchApply.MatchKey | nodes/fixer_node.py:148-151 | `next(...)` yields a key of the source files with the same base name, ignoring case |
| PatchApply.Target | nodes/fixer_node.py:147-160 | a block targets only a non-empty key of the source files that matches its file name |
| PatchApply.TargetIsMatchedKey | nodes/fixer_node.py:160 | in a well-formed dictionary the target is exactly the matched key when it is truthy |
| PatchApply.ApplyBlock | nodes/fixer_node.py:160-171 | one block never adds or drops an index key, and keeps every target file indexed and present |
| PatchApply.ApplyBlocks | nodes/fixer_node.py:132-178 | applying the blocks never enlarges the index's key set |
| PatchApply.ApplyBlockBacksUp | nodes/fixer_node.py:161-165 | a matched block copies the old file to its stamped backup path before overwriting it with the block's code; one write is counted |
| PatchApply.ApplyBlocksEntry | nodes/fixer_node.py:166-171 | each entry keeps its path, class, imports and calls; its content and checksum come from the last block that targets it; an untargeted entry is unchanged |
| PatchApply.ApplyBlocksWrites | nodes/fixer_node.py:160-171 | every matched block is exactly one write |
| PatchApply.ApplyBlocksUntouched | nodes/fixer_node.py:160-171 | no path other than the source files and their backups is created, changed or removed |
| PatchApply.ReadCode | nodes/fixer_node.py:153-158 | the inner loop collects the lines from the start up to the next fence |
| PatchApply.WriteBlock | nodes/fixer_node.py:160-171 | backing up, writing and updating the entry in place leaves the index and disk the specification `ApplyBlock` describes |
| PatchApply.PatchBlock | nodes/fixer_node.py:147-171 | reading a block's code and writing it is `ApplyBlock` of that block, ending at the closing fence |
| PatchApply.ApplyLines | nodes/fixer_node.py:129-178 | the line loop leaves the index, the disk and the write count that `ApplyBlocks` gives for the parsed blocks, and keeps the key order |
| PatchApply.ApplyFixes | nodes/fixer_node.py:123-178 | `apply_fixes_to_code` modifies the index and disk exactly as the specification fold over the reply's blocks describes |
| Session.SectionsAt | nodes/testing_node.py:11-14 | a listing has one `// FILE:` section per name in order, with that name's code or "" when it has none |
| Session.SectionsAgree | nodes/fixer_node.py:264-270 | a listing depends only on the code of the names it lists |
| FixerNode.Tail | nodes/fixer_node.py:189 | `s[-5000:]` keeps the last min(len, 5000) characters |
| FixerNode.Reindexed | nodes/fixer_node.py:198-203 | the index a round works on is well formed and points only at existing files |
| FixerNode.Relevant | nodes/fixer_node.py:205 | the relevant files are a well-formed sub-dictionary of the index |
| FixerNode.Patched | nodes/fixer_node.py:244 | patching keeps the index's key set |
| FixerNode.NodeFixer | nodes/fixer_node.py:180-274 | the round leaves the disk patched as the specification describes and returns the state built from the reindexed, patched index; the retry counter is not touched |
| FixerNode.FixerKeepsIndexKeys | nodes/fixer_node.py:198-256 | a round never adds or drops a key of the index it works on |
| FixerNode.FixerKeepsBackup | nodes/fixer_node.py:246-252 | a state that already holds a backup keeps it and its path map |
| FixerNode.FixerBacksUpIndex | nodes/fixer_node.py:246-252 | the first round's backup and path map cover every index entry, in order, with its content and path |
| FixerNode.FixerRereadsRelevant | nodes/fixer_node.py:254-256 | the relevant files are re-read from the patched index, in their selected order |
| FixerNode.FixerKeepsVerdict | nodes/fixer_node.py:258-273 | a round leaves the decision fields, the feedback and the retries alone, and records the log tail as the original error |
| FixerNode.FirstRoundComparesPatchedCode | nodes/fixer_node.py:244-270 | the backup is taken after patching, so the first round's original and fixed listings are equal |
| FixerNode.FirstBackupHoldsPatch | nodes/fixer_node.py:244-252 | a file that the first reply patched is backed up with the patch's code, not with what it held before |
| TestingNode.TestingListings | nodes/testing_node.py:11-18 | the validator sees the relevant files in order, each with its backed-up code ("" when it has none) and with its current code |
| TestingNode.TestingCrashes | nodes/testing_node.py:5-73 | the node raises exactly when the relevant files or the backup are missing, or when the feedback of a REJECT cannot be built |
| TestingNode.RejectCountsRetry | nodes/testing_node.py:62-71 | a REJECT sets retries to the old value (default 0) plus one and leaves the summary, separator and report as feedback |
| TestingNode.RejectListsReasons | nodes/testing_node.py:64-71 | a REJECT's reasons appear joined with "; " after "REJECTED. Reasons: " |
| TestingNode.RejectJoinsKeys | nodes/testing_node.py:64-71 | reasons given as a non-empty dictionary do not raise: its keys, in the order they were read, appear joined with "; " after "REJECTED. Reasons: " |
| TestingNode.SingleKeyReason | nodes/testing_node.py:64-68 | a dictionary with one reason shows exactly that key, whatever the key order |
| TestingNode.OtherVerdictKeepsCount | nodes/testing_node.py:52-62 | any other decision copies the result's fields, keeps retries (default 0) and keeps the previous feedback |
| TestingNode.RaisingValidatorNeedsReview | nodes/testing_node.py:27-50 | a raising validator gives NEEDS_REVIEW and unchanged retries; the reason is QuotaExceeded or UnexpectedError; the feedback ends with the exception's text |
| TestingNode.MissingErrorIsReported | nodes/testing_node.py:20-50 | a state without the original error is reported as an unexpected validator error |
| TestingNode.TestingKeepsRepairState | nodes/testing_node.py:52-60 | the node keeps every repair key of the state, and retries become the old value or one more |
| TestingNode.AbsorbKeeps | nodes/testing_node.py:30-60 | every verdict keeps the index, the selection, the backup, the path map, both listings and the original error |
| TestingNode.SystemFailureFeedback | nodes/testing_node.py:62-71 | a workflow system failure counts as a REJECT with its "System error" reason and report as feedback |
| TestingNode.SystemFailureCountsRetry | nodes/testing_node.py:20-71 | when a validation node cannot be set up, the testing node counts a retry and reports the workflow failure |
| MainGraph.RestoreOriginalCode | main_graph.py:6-19 | the rollback loop leaves the disk as the restore specification describes |
| MainGraph.RestoreUntouched | main_graph.py:11-16 | a path that no backed-up name maps to is left as it was |
| MainGraph.RestoreWritesBackup | main_graph.py:11-19 | the last name that maps to a writable path leaves its backup content there, whatever other writes failed |
| MainGraph.RestoreRecoversBackup | main_graph.py:6-19 | restoring the first round's backup with distinct, writable paths puts every indexed file back to its backed-up content |
| MainGraph.Router | main_graph.py:22-36 | DEPLOY and NEEDS_REVIEW end with nothing changed; otherwise, with retries (default 0) of 3 or more, it restores and ends; below 3 it adds exactly one retry and goes back to the fixer |
| MainGraph.RunGraph | main_graph.py:38-53 | the fix, test, route loop terminates: it takes at most 4 − retries rounds (at least one), and a normal end is a DEPLOY or NEEDS_REVIEW decision or the retry limit |
| MainGraph.RunFromStart | main_graph.py:55-60 | started with retries 1, the run takes at most three rounds |
| Json.Get | sre_validation_system.py:427-430 | `dict.get` returns the stored value, or the default when the key is absent |
| Json.Add | sre_validation_system.py:429 | `+` of two lists concatenates them; a list with a non-list, or a dict or None, raises |
| Validation.BraceSpanBraced | sre_validation_system.py:101-105 | with a '}' after the first '{', the text is cut exactly from the first '{' to the last '}' |
| Validation.BraceSpanUnbraced | sre_validation_system.py:104 | without a '}' after the first '{', the text is left as it is |
| Validation.UnfenceBraced | sre_validation_system.py:94-99 | a text that opens with '{' and closes with '}' has nothing to strip or unfence |
| Validation.BraceSpanWhole | sre_validation_system.py:101-105 | a braced text is its own brace span |
| Validation.CleanFixpoint | sre_validation_system.py:94-105 | the cleanup leaves its own braced result unchanged |
| Validation.InvokeStep | sre_validation_system.py:83-146 | each attempt returns a parsed value, retries, or returns the rate-limit, parse or call-failed error object, by the rules of the `except` branch |
| Validation.TryAttempt | sre_validation_system.py:84-146 | one pass of the loop body either returns what the specification returns or moves on, and only before the last attempt |
| Validation.InvokeWithJsonResponse | sre_validation_system.py:78-146 | the loop returns the specification's value after the specification's number of calls |
| Validation.InvokeCalls | sre_validation_system.py:80-83 | at least one and at most three model calls are made |
| Validation.RateLimitedThrice | sre_validation_system.py:113-125 | rate limiting on every attempt gives the rate-limit error object after three calls |
| Validation.JsonErrorStops | sre_validation_system.py:127-137 | a JSON failure that is not a rate limit returns the parse-error object without retrying |
| Validation.RateLimitBeforeJson | sre_validation_system.py:113-128 | rate limiting is tested first: a message that is both is retried |
| Validation.LastFailureReported | sre_validation_system.py:139-146 | any other failure on the last attempt returns "LLM call failed: " with the message |
| Validation.StageKeysDistinct | sre_validation_system.py:45-49 | the five stages write five different keys |
| Validation.StageNode | sre_validation_system.py:176-188 | a stage either raises (its service setup failed) or returns a one-key delta holding a dictionary |
| Validation.StageKeepsAnalysis | sre_validation_system.py:176-185 | a stage that displays its result without error stores exactly what the call returned |
| Validation.StageResultsWellShaped | sre_validation_system.py:176-385 | every stage's update writes its own key alone, holding a dictionary, and a stage updates exactly when its setup succeeds |
| Validation.SummaryUnknown | sre_validation_system.py:443-448 | a missing stage or stage field reads as 'Unknown' in the report summary |
| Validation.SummaryAfterStages | sre_validation_system.py:443-448 | after all five stages the summary cannot raise |
| Validation.SystemFailureShape | sre_validation_system.py:474-481 | a system failure is a REJECT with the failure text as report, one recommendation and one "System error: " reason |
| Validation.DecisionNode | sre_validation_system.py:423-481 | the decision raises exactly when its setup fails, and otherwise writes exactly the four decision keys |
| Validation.DecisionFields | sre_validation_system.py:426-430 | the decision defaults to NEEDS_REVIEW, recommendations are actions + improvements, failure reasons are the critical issues or [] |
| Validation.MissingDecisionNeedsReview | sre_validation_system.py:427-430 | a reply with no decision, the error object of a failed call among them, yields NEEDS_REVIEW with empty lists |
| Validation.DecisionLists | sre_validation_system.py:429-430 | with list-valued fields, recommendations are the two lists concatenated |
| Validation.RunStagesReached | sre_validation_system.py:513-519 | when every stage updates, the run adds their keys, each holding a dictionary, and keeps every other key |
| Validation.RunStagesValues | sre_validation_system.py:513-519 | with distinct stages, each stage key holds exactly what that stage returned |
| Validation.RunStagesStopped | sre_validation_system.py:513-519 | the first stage that raises stops the run with its exception |
| Validation.StageOrderDistinct | sre_validation_system.py:513-518 | the fixed order runs each stage once |
| Validation.StageOrderKeys | sre_validation_system.py:513-518 | the fixed order writes exactly the five stage keys |
| Validation.WorkflowCompletes | sre_validation_system.py:513-522 | with every stage updating, the decision sees the inputs and each stage's own dictionary, and the result adds its update |
| Validation.WorkflowStops | sre_validation_system.py:558-573 | an exception at the first raising stage gives the REJECT result, and the decision never runs |
| Validation.WorkflowFails | sre_validation_system.py:566-573 | an exception from any stage, or from the decision, gives the REJECT system failure |
| Validation.DeciderEscapes | sre_validation_system.py:387-389 | a decision node whose service setup raises lets the exception out on every state |
| Validation.DeciderUpdates | sre_validation_system.py:423-472 | a decision node whose setup succeeds writes the four decision keys on every state |
| Validation.ValidateCodeFails | sre_validation_system.py:529-573 | when any node raises, `validate_code_with_llm` returns a REJECT system failure |
| Validation.KeysApart | sre_validation_system.py:551-556 | no stage writes a decision key or an input key, and the inputs hold no decision key |
| Validation.WorkflowResult | sre_validation_system.py:558-564 | when every node returns its update, the result holds the inputs unchanged, every stage's value and the decision keys |
| Validation.ValidateCodeCompletes | sre_validation_system.py:529-564 | with no node raising, the result holds the four inputs, the five stage values as their nodes returned them and the four decision keys |

## Left out

- The Gemini calls are not modelled: `genai` configuration, API keys, model settings and every prompt text, including the rejection note the fixer adds to its prompt. The model's reply is a parameter of a fixer round. The validation nodes' answers are functions from the attempt number to a reply text or a raised error.
- `json.loads` is a parameter `parse` from text to a value or a decode-error message. Python's `str()` of a non-string value in an f-string is a parameter `render`. JSON numbers are integers.
- md5 and the class, import and call regular expressions are uninterpreted functions. The `at X(Name.java:N)` frame pattern is a hand-written scanner. Its `\w` and `\d`, and so its `\b`, are ASCII only, while Python's Unicode classes are wider. Its `\s` is the full `str.isspace` set, as in Python.
- `str.lower()` lower-cases ASCII letters only.
- `find_error_log`, the 10-level search for the project directory, and `os.walk` are not modelled. The log text and the walk's path sequence are parameters.
- The file system is a map from path to (mtime, content). `shutil.copy2`, `getmtime` and `datetime.now()` become a clock: the n-th patch write gets the n-th mtime and backup stamp. Restores all get one mtime `now`. A `writable` predicate stands for restore writes that raise; `restore_original_code` catches those and goes on.
- The `repo_url`, `branch_name`, `commit_message` and `local_repo_path` keys and their date formatting are not modelled. nodes/commit_and_pr_node.py is not part of this model: it is unreachable in the graph and only posts to a service.
- LangGraph's `StateGraph` wiring, compilation and `invoke` are replaced by an explicit loop (`RunGraph`) and an explicit stage sequence (`RunWorkflow`).
- The session dict is a value, not an alias. The router's in-place retry update is the state `Router` returns, and the loop continues with it.
- `print` and `time.sleep` are left out; the 60-second rate-limit wait is dropped from the model.
- The order of the Python set that `fan_out` returns is not modelled. The relevant files take the index's order in the model, where Python gives them an arbitrary set order. That order shows in three places: the order of the `--- name ---` sections of the fixer's code context, the order of the testing node's original and fixed listings (through `relevant_files`), and the first-match lookup between keys that differ only in case.
- A backed-up name missing from its dictionary reads as "" (`Lookup`). This is the `.get(fname, '')` of testing_node.py, and it is also used where main_graph.py iterates the backup's own items.
- `JoinJson` joins a string, a list of strings or a dictionary, as `str.join` does; a number, a boolean or a list with a non-string item raises. A dictionary's keys are taken in the order a `KeyOrder` parameter gives, because `JObj` keeps no key order; `ListsKeys` says that order lists each key once and nothing more is assumed about it.
- The source checks for "json" in a lower-cased message, which the model keeps as written. The model does not settle which messages the Python parser actually produces.
- MainGraph.RunGraph: its contract states termination, the round bound and how a run ends. The per-round state is stated by the contracts of `NodeFixer`, `TestingNode` and `Router` rather than repeated in the loop's `ensures`.
- FaultLocation.ScanFramesNames: it is stated that every captured name ends in `.java`. That the scanner captures every frame the regular expression would match is not proved.
- PatchApply.ApplyBlock: the backup copy and the patch write are taken to succeed. In nodes/fixer_node.py they are not inside any `try`, so a refused write raises out of `node_fixer` and ends the graph run with an exception. The model has no crash outcome for the fixer (`Run` ends only at the router or after the testing node raises).
- FileIndex.BuildFileEntryShape: the class-name fallback is stated as a prefix of the base name (`splitext`), not as its exact value.
