# Radeon Developer Panel: a verification model

A Dafny model of the parts of the Radeon Developer Panel whose correctness rests on more than one
function: the blocklist's wildcard matcher, Windows argument quoting, the CLI's auto-capture protocol,
the in-memory trace streams and what becomes of them, the capture API's connection and feature rules,
its system-information report, the GUI's blocklist with its defaults, and the strip of capture tabs.
`dafny verify dfyconfig.toml` checks everything. There is one module per component:

| file | models |
|---|---|
| `Wrappers.dfy`, `CaptureApi.dfy` | values that may be missing; bytes and results of the API |
| `CStrings.dfy` | NUL-terminated views, `std::getline` splitting, case folding, decimal printing |
| `Glob.dfy`, `GlobEscapes.dfy`, `GlobFolding.dfy` | the pattern language, the matcher, the manual's escapes, lower-casing |
| `GlobText.dfy` | what each wildcard means, from pattern text to name |
| `Blocklist.dfy` | the pattern list of the capture API and the decision to block |
| `ArgQuoting.dfy` | quoting an argument vector into a command line, and taking one apart |
| `AutoCaptureOption.dfy` | the `--rgp-auto-capture` option |
| `AutoCapture.dfy`, `Stages.dfy` | who decides how an auto-capture ends |
| `TraceIo.dfy` | growable in-memory streams and the provider that names them |
| `TraceAdapter.dfy` | status notifications; handing a finished trace over and freeing it |
| `CaptureContext.dfy` | enabling features, accepting and tracking connections |
| `SystemInfo.dfy` | the nested report of drivers, CPUs and GPUs, and freeing it |
| `BlocklistModel.dfy` | the GUI's per-platform lists, settings file, migration and removed defaults |
| `TabStrip.dfy` | ordered insertion of module tabs and the placeholder |

## How the model is set up

- Operations that update objects are methods of classes with the same fields. Each is proved equal to a
  function of the old state, or to a stated relation with it; the properties are then proved of these
  functions, over all inputs and over runs of any length. Histories (calls of callbacks so far, bytes
  moved, blocks freed) are kept as additional fields.
- Text is a sequence of single-byte characters. `c_str()` is the text up to its first NUL. Entries added
  through the API end at their first NUL; lines of a file are kept as they are, and the matcher reads
  either up to a NUL. Case folding is that of the "C" locale.
  A command line is the text itself; arguments hold no NUL, which could not be passed on.
- Integers are unbounded, except where the width matters: the 32-bit limit of `ParseNumber`, and the
  conversions of a driver index to `int32_t` and of a seek position to `size_t`. Other sizes and
  counters of 64 bits do not wrap.
- Streams are used in contract: a stream is not used after `Close` or after a seek to a negative
  position, and a path is opened only while no handle on it is open (the source asserts it).
- Process ids are not zero. What the drivers, the router, the user's filter and the file system answer
  are inputs of the step that asks; allocations are granted or refused by an arbitrary script.
- In auto-capture every access to shared state, and every section under the output mutex, is one step.
  Steps of the polling thread, the callbacks and the signal handler interleave freely; the final save
  is one step; the clock only moves forward. Elsewhere a locked section is one step.
- The routines that fill arrays build them front to back as sequences; a pointer to such an array is a
  block number with the elements, so that blocks can be counted and freeing be checked.

## Where the code and its documentation part

- Pattern documentation lists the backslash as the escape character without restriction; inside
  brackets the code treats it as an ordinary member (`GlobFolding.BackslashInClassIsAMember`). Both
  read a pattern as the same tokens exactly when no class holds a backslash (`GlobEscapes.ManualAgreesIff`);
  then they match the same names (`GlobEscapes.ManualMatchesAlike`), as some other patterns do too.
- A comment in `ParseAutoCapture` gives an empty frame index a default; the code reads it as frame 0 and
  rejects it (`AutoCaptureOption.EmptyFrameIndexIsRejected`; `AcceptsIffGrammar` has the exact grammar).
- `LoadFile` leaves out exact copies only, so a case-insensitive list can come to hold two spellings
  (`Blocklist.MergeCanBreakDistinct`, exactly when: `Blocklist.MergeKeepsDistinctIff`); removing one
  then does not unblock the name (`Blocklist.RemovedIsGoneIff`).
- A success that arrives between the loop condition and the stage of the same poll is dropped when that
  stage is an error (`AutoCapture.SuccessCanBeLost`), and at no other point
  (`AutoCapture.SuccessIsLostIff`); a connection that becomes ready when the failure latch has been read
  already is timed out all the same (`AutoCapture.ReadyConnectionCanBeTimedOut`), and only then
  (`AutoCapture.ReadyIsTimedOutIff`).
- A program name with a double quote, or one that needs quoting and ends in a backslash, is not read
  back: argument zero has a rule of its own that the quoting does not follow
  (`ArgQuoting.CommandLineRoundTrip`).
- Two clients accepted before either has connected can break the assertion in `OnDriverConnected`
  (`CaptureContext.TwoProcessesCanBeLive`): exactly when the clients waiting to connect do not agree on a
  process (`CaptureContext.AssertedIffAgree`, `CaptureContext.TwoProcessesIff`), which a decision can
  prevent (`CaptureContext.DecisionAgreesIff`).
- A failing configuration leaves the feature's adapter switched on (`CaptureContext.AdapterStrandedIff`).
- A finished trace whose callback is not registered is never consumed, so its buffer stays
  (`TraceAdapter.CompletionReleasesIff`).
- `RestoreDefaults` is described as restoring the model; it resets the current platform's list only
  (`BlocklistModel.RestoreResetsAllIff`). A default renamed in place comes back with the next load
  (`BlocklistModel.EditReloadsIff`).

## Main results

- The matcher is the pattern's meaning, with its bound on rounds (`Glob.MatchesWildcard`); that meaning is the
  documented one, wildcard by wildcard (`GlobText.QuestionMarkIsAnyCharacter` and its companions, `PrintingIsReadBack`);
  lower-casing and escaping (`GlobFolding.FoldedGlobIsModuloCase`, `EscapeIsExact`, `GlobEscapes.ManualAgreesIff`).
- Quoting and the published parsing rules are inverse (`ArgQuoting.CommandLineRoundTrip`).
- Auto-capture has one outcome in every interleaving (`AutoCapture.InvStep` and the run theorems on it, with
  `SuccessIsLostIff` and `ReadyIsTimedOutIff` for its two races); a timeout is earned by what the feature
  reported (`TimeoutIsEarned`, `LoggedStagesAreReported`), the latches are what the events make of them
  (`SuccessIff`, `FailureIff`, `CompleteIff`), and the option has an exact grammar.
- Streams are isolated byte sequences and consumed once (`TraceIo.StreamsAreIsolated`,
  `TraceIo.ConsumptionDelivers`); blocks are released once (`TraceAdapter.BlocksAreAccountedFor`).
- Features are exclusive and frozen while connected, one process is connected, and nobody blocked is
  (`CaptureContext.FrozenUntilAllHaveLeft`, `AssertedIffAgree`, `LiveWereCleared`), where who is live is read
  off the events (`LiveIff`).
- System information is complete, or rolled back, and freed exactly (`SystemInfo.ReportIsComplete`,
  `FailureRollsBack`, `FreeUndoesGet`).
- Saved lists reload and removed defaults stay away (`BlocklistModel.RunsStaySteady`, `RemovedStaysRemoved`).
- The tabs are those enabled last, in order, after any run (`TabStrip.TabsAreThoseEnabledLast`).

The other rows are parts of these, the operations themselves, or plain statements of what an operation
decides or copies.

## Model

| member | source | states |
|---|---|---|
| Glob.MatchesWildcard | source/api/api_blocklist.cpp:436-541 | returns true exactly when the whole pattern matches the whole name, for every name and pattern; the outer loop takes at most (name length + 1) x (pattern length + 1) rounds |
| Glob.MatchesIffCut | source/api/RdpCaptureApi.h:808-829 | a match is a cutting of the name into consecutive pieces, any text for a star and one accepted character for every other token |
| Glob.EarliestIsBest | source/api/api_blocklist.cpp:519-523 | what a later star can reach from a later start of the segment before it, it can reach from the earliest |
| Glob.NewStar | source/api/api_blocklist.cpp:519-523 | forgetting the previous star when a new one is met loses no match |
| Glob.Backtrack | source/api/api_blocklist.cpp:529-535 | after a mismatch only later starts behind the remembered star can succeed |
| Glob.AtEnd | source/api/api_blocklist.cpp:536-541 | with the name used up, no later start has room: what is left of the pattern decides |
| Glob.FindClassEnd | source/api/api_blocklist.cpp:458-471 | the scan finds where a class begins and ends: a leading exclamation mark skipped, a leading closing bracket a member, unterminated if none follows |
| Glob.InClassBody | source/api/api_blocklist.cpp:486-504 | the walk over the members finds exactly the listed characters and ranges |
| Glob.TryToken | source/api/api_blocklist.cpp:445-535 | one step of the matcher advances past the token exactly when the token accepts the character |
| GlobText.PrintingIsReadBack | source/api/RdpCaptureApi.h:808-829 | every sequence of tokens is what its printed form is read as |
| GlobText.QuestionMarkIsAnyCharacter | source/api/api_blocklist.cpp:524-528 | between two escaped texts a question mark stands for exactly one character, whichever it is, and nothing else matches |
| GlobText.StarIsAnyText | source/api/api_blocklist.cpp:519-523 | between two escaped texts a star stands for any text, the empty one included |
| GlobText.BracketsAreOneMember | source/api/api_blocklist.cpp:458-517 | between two escaped texts brackets stand for exactly one of their members, with an exclamation mark for exactly one character that is none |
| GlobText.ClassHasItsMembers | source/api/api_blocklist.cpp:486-504 | the members are the characters and ranges written between the brackets, one behind the other |
| GlobText.DashAtAnEndIsAMember | source/api/api_blocklist.cpp:486-504 | a dash that comes first or last is a member itself |
| GlobText.BackslashTakesOneCharacter | source/api/api_blocklist.cpp:445-457 | a backslash makes the character behind it, whichever it is, stand for itself |
| GlobText.UnclosedBracketIsItself | source/api/api_blocklist.cpp:465-481 | a bracket that nothing closes stands for itself |
| GlobText.FinalBackslashIsItself | source/api/api_blocklist.cpp:445-457 | so does a backslash at the very end |
| GlobFolding.EscapeIsExact | documentation/source/radeon_developer_panel_cli.rst:266-287 | a text with every special character escaped is a pattern that matches that text and nothing else |
| GlobFolding.BackslashInClassIsAMember | source/api/api_blocklist.cpp:486-504 | a concrete pattern whose bracketed backslash is a member and does not escape the bracket behind it |
| GlobEscapes.ManualAgreesIff | documentation/source/radeon_developer_panel_cli.rst:266-277 | the manual, where a backslash escapes between brackets too, and the code read a pattern as the same tokens exactly when no class of it holds a backslash |
| GlobEscapes.ManualMatchesAlike | documentation/source/radeon_developer_panel_cli.rst:266-277 | such a pattern matches, by the manual's reading, exactly the names the code matches |
| GlobFolding.LowerCommutesWithTokens | source/api/api_blocklist.cpp:400-418 | lower-casing a pattern and then tokenising it is tokenising it and then lower-casing the tokens |
| GlobFolding.RangeFoldsIffCaseSafe | source/api/api_blocklist.cpp:400-418 | lower-casing both ends of a range keeps its meaning modulo case exactly for the ranges a simple test on the ends admits |
| GlobFolding.FoldedGlobIsModuloCase | source/api/api_blocklist.cpp:400-418 | for patterns with case-safe ranges, matching lower-cased text is matching modulo case |
| GlobFolding.UnsafeRangeLosesAMatch | source/api/api_blocklist.cpp:400-418 | a concrete pattern whose range is not case-safe loses a match |
| Blocklist.Basename | source/api/api_blocklist.cpp:422-434 | the part of the path behind the last separator of either kind |
| Blocklist.TrimCutsBlanks | source/api/api_blocklist.cpp:323-334 | trimming takes away exactly the blanks around a line's text |
| Blocklist.EntryIff | source/api/api_blocklist.cpp:316-340 | a line, less one carriage return at its end, holds an entry exactly if that is what stands between the blanks around it, is not empty and no comment |
| Blocklist.BlankIsNoEntry | source/api/api_blocklist.cpp:323-327 | nothing but blanks is no entry |
| Blocklist.CommentIsNoEntry | source/api/api_blocklist.cpp:331-334 | nor is a comment, whatever stands in it |
| Blocklist.EntriesAreLineByLine | source/api/api_blocklist.cpp:314-340 | a file's entries are those of its lines, in their order |
| Blocklist.BlocksIff | source/api/api_blocklist.cpp:392-420 | a path is blocked exactly when it ends, behind a separator or all of it, in a file name that some entry matches |
| Blocklist.EscapedBlocksItself | source/api/api_blocklist.cpp:400-418 | an escaped text blocks exactly the name it is, and where case is ignored exactly the names that differ from it in case only |
| Blocklist.CaseSensitiveEntryIsItsPattern | source/api/api_blocklist.cpp:400-418 | where case counts, an entry blocks exactly the names its pattern matches |
| Blocklist.AddedIsLast | source/api/api_blocklist.cpp:235-262 | an entry that none compares equal to comes last; any other changes nothing |
| Blocklist.FirstIsRemoved | source/api/api_blocklist.cpp:264-293 | the first entry that compares equal is taken out and the others keep their order; without one nothing is |
| Blocklist.MergeIsOneByOne | source/api/api_blocklist.cpp:342-349 | the entries of a file join one by one, each last unless the list has that very entry |
| Blocklist.ApiBlocklist.FindEntry | source/api/api_blocklist.cpp:243-258 | the first entry that compares equal, or the end |
| Blocklist.ApiBlocklist.AddEntry | source/api/api_blocklist.cpp:235-262 | appends the entry unless an equal one is there; null and empty patterns are refused and change nothing |
| Blocklist.ApiBlocklist.RemoveEntry | source/api/api_blocklist.cpp:264-293 | removes the first equal entry, or reports that there is none |
| Blocklist.ApiBlocklist.Clear | source/api/api_blocklist.cpp:295-299 | leaves no entry |
| Blocklist.ApiBlocklist.LoadFile | source/api/api_blocklist.cpp:301-352 | merges the entries of the file's lines, comments and blank lines left out; each error keeps the list |
| Blocklist.ApiBlocklist.Contains | source/api/api_blocklist.cpp:392-420 | true exactly when the path has a file name and some entry matches it, on lower-cased text if the platform ignores case |
| Blocklist.AddKeepsDistinct | source/api/api_blocklist.cpp:235-262 | adding keeps the list free of equal entries |
| Blocklist.RemoveKeepsDistinct | source/api/api_blocklist.cpp:264-293 | so does removing |
| Blocklist.MergeKeepsExactDistinct | source/api/api_blocklist.cpp:342-349 | loading keeps it free of exact copies |
| Blocklist.MergeCanBreakDistinct | source/api/api_blocklist.cpp:342-349 | a concrete list and file: loading brings in an entry that differs from another in case only |
| Blocklist.MergeKeepsDistinctIff | source/api/api_blocklist.cpp:342-349 | loading keeps the list free of equal entries exactly when the file spells each entry as the list does, and in one way |
| Blocklist.DistinctRemovedIsGone | source/api/api_blocklist.cpp:264-293 | from a list free of equal entries a removed entry is always gone |
| Blocklist.AddBlocks | source/api/api_blocklist.cpp:235-262 | after an addition exactly the entry's own names are blocked in addition, also when it was left out as a duplicate |
| Blocklist.MergeBlocks | source/api/api_blocklist.cpp:301-352 | after loading exactly the names of both lists are blocked |
| Blocklist.RemoveBlocks | source/api/api_blocklist.cpp:264-293 | a removal takes away the entry's own names and no others |
| Blocklist.RemoveUndoesAdd | source/api/api_blocklist.cpp:235-293 | removing an entry that was newly added restores the list |
| Blocklist.RemovedIsGoneIff | source/api/api_blocklist.cpp:264-293 | a removed entry is gone exactly when the list held at most one copy of it |
| Blocklist.BlocksModuloCase | source/api/api_blocklist.cpp:392-420 | ignoring case, a list of case-safe patterns blocks what some entry matches modulo case |
| ArgQuoting.QuoteArgWindows | source/cli/capture_cli.cpp:1034-1071 | the loops compute the quoted form of the argument, character for character |
| ArgQuoting.BuildCommandLine | source/cli/capture_cli.cpp:1087-1104 | joins the quoted arguments with single blanks; without arguments there is nothing to start |
| ArgQuoting.LeftAloneIff | source/cli/capture_cli.cpp:1036-1040 | an argument is left as it is exactly when it is not empty and has no blank, tab, line feed, vertical tab or double quote |
| ArgQuoting.QuotesGoAround | source/cli/capture_cli.cpp:1042-1070 | a quoted argument without quotes and backslashes of its own is just put between quotes |
| ArgQuoting.LineIsJoined | source/cli/capture_cli.cpp:1096-1104 | the line is the quoted arguments with one blank between two of them |
| ArgQuoting.BodyParses | source/cli/capture_cli.cpp:1046-1069 | what is written behind the opening quote is read back, backslash runs before quotes and at the end included |
| ArgQuoting.QuotedParses | source/cli/capture_cli.cpp:1034-1071 | any argument is read back as itself, and the reading stops exactly where it ends on the line |
| ArgQuoting.ArgumentsRoundTrip | source/cli/capture_cli.cpp:1096-1104 | every list of arguments is what the published parsing rules make of its command line, under each published treatment of paired quotes |
| ArgQuoting.CommandLineInjective | source/cli/capture_cli.cpp:1096-1104 | different argument lists give different lines |
| ArgQuoting.ProgramRoundTrip | source/cli/capture_cli.cpp:1096-1104 | the program name is read back under its own rule exactly when it has no quote and, if quoted, no final backslash |
| ArgQuoting.CommandLineRoundTrip | source/cli/capture_cli.cpp:1087-1104 | the started program sees the whole argument vector exactly when its name is of that kind, whatever the arguments are |
| AutoCapture.InvStep | source/cli/capture_cli.cpp:1303-1479 | every step of every thread keeps the invariant over latches, program point, deadline and poll history |
| AutoCapture.OneOutcome | source/cli/capture_cli.cpp:1373-1397 | in every interleaving "timed out" and "succeeded" are never both latched, and a timed-out run holds no data |
| AutoCapture.TimeoutIsFinal | source/cli/capture_cli.cpp:2411-2418 | after a timeout nothing is recorded or saved, whatever arrives |
| AutoCapture.SuccessIsFinal | source/cli/capture_cli.cpp:2426-2448 | a latched success stays; later failures change nothing and the run cannot end as a timeout |
| AutoCapture.ExitCode | source/cli/capture_cli.cpp:1410-1478 | the exit code is 0 or 1; 0 implies a latched success; a success that ends with code 1 has one of four named causes |
| AutoCapture.OutcomeDecides | source/cli/capture_cli.cpp:1425-1478 | behind the loop, 0 is returned exactly when there is no data or the data is usable and the file opens, and a file is written exactly when there is data and 0 is returned |
| AutoCapture.DataIsLastPayload | source/cli/capture_cli.cpp:2426-2436 | the recorded data is the payload of the last successful result that carried one |
| AutoCapture.FileIsLastPayload | source/cli/capture_cli.cpp:1436-1445 | the saved file is, unchanged, what the last success before the saving step had delivered |
| AutoCapture.SuccessIff | source/cli/capture_cli.cpp:2406-2436 | in every run that has not timed out, success is latched exactly when some result was good |
| AutoCapture.CompleteIff | source/cli/capture_cli.cpp:820-825 | in every run the interrupt is latched exactly when the signal handler has made its first store, and the wait is over exactly by its second, or by a success |
| AutoCapture.FailureIff | source/cli/capture_cli.cpp:2466-2494 | in every run, while the wait goes on, the failure latch says exactly whether there was a bad result since a connection last became ready |
| AutoCapture.FirstFailureCompletesIff | source/cli/capture_cli.cpp:2450-2463 | a first bad result ends the wait exactly when the capture is no automatic one, neither by frame or dispatch nor by the ray tracing switch |
| AutoCapture.SuccessIsSaved | source/cli/capture_cli.cpp:1311-1445 | a success found at the loop condition is saved by the next three steps of the waiting thread, whatever the others do in between, unless the user interrupts, the file does not open or the trace is unusable |
| AutoCapture.InterruptEnds | source/cli/capture_cli.cpp:1410-1423 | an interrupt found there ends the wait without a file |
| AutoCapture.TimeoutIsEarned | source/cli/capture_cli.cpp:1311-1408 | a timeout comes only when the log of all polls ends in a stretch of 5000 ms or more from the arming poll on, in each poll of which the stage was unknown, disconnected, done, an error or an unsupported API, polls at least 100 ms apart, and at the first poll that late that was told of no unsupported API |
| AutoCapture.LoggedStagesAreReported | source/cli/capture_cli.cpp:1313-1408 | in every run the logged stages are those the feature reported, each once and in order; only that of a poll under way or of the one that ended the wait is not among them |
| AutoCapture.StageDecides | source/cli/capture_cli.cpp:1315-1405 | stage by stage, what one poll does: exactly five stages end the wait with an error, an unsupported API leaves the deadline as it is, four idle stages go on to the deadline if a failure is outstanding, and all else forgets it |
| AutoCapture.SleepEndsOnTime | source/cli/capture_cli.cpp:1407 | a sleeping thread wakes once its time has come, and not before |
| AutoCapture.AtMostFiftyIdlePolls | source/cli/capture_cli.cpp:1358-1408 | a thread still waiting has seen idle failures only among the first 50 polls since arming |
| AutoCapture.FiftyFirstIdlePollDecides | source/cli/capture_cli.cpp:1361-1398 | an idle failure at the 51st poll since arming, or later, ends the wait within two more steps of the waiting thread, whatever the other threads do in between |
| AutoCapture.ClaimIsReachable | source/cli/capture_cli.cpp:1366-1393 | a run that gets as far as the decision under the mutex |
| AutoCapture.ReadyConnectionCanBeTimedOut | source/cli/capture_cli.cpp:1366-1397 | a run in which a connection that became ready before the decision under the mutex is timed out |
| AutoCapture.ReadyIsTimedOutIff | source/cli/capture_cli.cpp:1361-1397 | after a connection became ready a timeout can still come, with no further failure, exactly if the waiting thread is about to compare the clock or to decide |
| AutoCapture.SuccessIsLostIff | source/cli/capture_cli.cpp:1317-1341 | a latched success can be lost to a stage error exactly while the waiting thread is between its loop condition and the stage of that poll, with no interrupt it would still see first |
| AutoCapture.SuccessCanBeLost | source/cli/capture_cli.cpp:1317-1341 | a run in which a success is latched, and the thread returns 1 and saves nothing |
| AutoCapture.CaptureCli.TraceFinished | source/cli/capture_cli.cpp:2406-2464 | the callback does to the latches what its step does; latch by latch, what that is for a good result, a bad one, and one that comes too late |
| AutoCapture.CaptureCli.StatusChanged | source/cli/capture_cli.cpp:2466-2494 | the callback clears the failure latch exactly on a fresh ready connection of an unfinished auto-capture |
| AutoCapture.CaptureCli.Interrupt | source/cli/capture_cli.cpp:820-825 | the signal handler's two stores |
| AutoCapture.CaptureCli.ClaimTimeout | source/cli/capture_cli.cpp:1379-1393 | the timeout is claimed exactly when no capture has completed |
| AutoCaptureOption.PartsAreTheSplit | source/cli/capture_cli.cpp:253-275 | the getline loop with its fix-up computes the exact split of a non-empty text at colons |
| AutoCaptureOption.JoinSplit | source/cli/capture_cli.cpp:253-275 | the parts hold no colon and joining them gives the text back |
| AutoCaptureOption.SplitJoin | source/cli/capture_cli.cpp:253-275 | colon-free parts are found again |
| AutoCaptureOption.ParseNumber | source/cli/capture_cli.cpp:147-156 | accepts exactly non-empty digit strings below 2^32, with their value |
| AutoCaptureOption.ParseAutoCapture | source/cli/capture_cli.cpp:253-396 | accepts and fills in the configuration as the interpretation of the parts says |
| AutoCaptureOption.AcceptsIffGrammar | source/cli/capture_cli.cpp:253-396 | the accepted texts are exactly those of the frame and dispatch grammar with numbers in range |
| AutoCaptureOption.BareAccepted | source/cli/capture_cli.cpp:316-320 | a bare frame means frame 5; a bare dispatch keeps the configured start and count |
| AutoCaptureOption.FrameAccepted | source/cli/capture_cli.cpp:293-321 | a frame index in range is the configured frame |
| AutoCaptureOption.StartAccepted | source/cli/capture_cli.cpp:337-357 | a dispatch start in range is the configured start, an empty one means 1; the configured count is kept |
| AutoCaptureOption.CountAccepted | source/cli/capture_cli.cpp:337-395 | likewise the count, an empty one and 0 meaning 1 |
| AutoCaptureOption.EmptyFrameIndexIsRejected | source/cli/capture_cli.cpp:293-321 | the empty frame index is rejected |
| AutoCaptureOption.AcceptedIsUsable | source/cli/capture_cli.cpp:3335-3339 | from the command line's defaults, acceptance gives a frame index of at least 5, or a dispatch start and count of at least 1 |
| AutoCaptureOption.PrintRoundTrip | documentation/source/radeon_developer_panel_cli.rst:50-51 | a valid setting, printed and parsed, is that setting |
| TraceIo.MemoryReadWriteStream.Write | source/api/api_trace_io.cpp:83-113 | overwrites the content at the cursor and extends it if needed; capacity stays 1024 doubled, above the size and at most twice it; all reallocations together moved fewer bytes than the capacity |
| TraceIo.MemoryReadWriteStream.MakeRoom | source/api/api_trace_io.cpp:85-95 | the doubling loop ends, with the least doubled capacity above the wanted end |
| TraceIo.MemoryReadWriteStream.Reserve | source/api/api_trace_io.cpp:85-102 | growth keeps the bytes that were there |
| TraceIo.MemoryReadWriteStream.Read | source/api/api_trace_io.cpp:114-131 | delivers exactly the bytes at the cursor and moves it, or fails and moves nothing |
| TraceIo.MemoryReadWriteStream.Seek | source/api/api_trace_io.cpp:137-146 | goes anywhere up to the end, else fails and moves nothing; a negative position is accepted and leaves the cursor behind any content |
| TraceIo.MemoryReadWriteStream.Tell | source/api/api_trace_io.cpp:132-136 | tells the cursor |
| TraceIo.MemoryReadWriteStream.GetSize | source/api/api_trace_io.cpp:147-151 | tells the length of the content |
| TraceIo.MemoryReadWriteStream.Close | source/api/api_trace_io.cpp:78-81 | closes the stream |
| TraceIo.Grown | source/api/api_trace_io.cpp:85-95 | a new capacity exceeds the wanted end, is never smaller than the old one, and when larger is at least twice it and at most twice the end |
| TraceIo.GrownIsCapacity | source/api/api_trace_io.cpp:85-95 | it is 1024 times a power of two |
| TraceIo.ConsecutiveWrites | source/api/api_trace_io.cpp:83-113 | two writes in a row are one write of the joined bytes |
| TraceIo.ReadBack | source/api/api_trace_io.cpp:83-131 | what was written is what is read back from the same place |
| TraceIo.MachineSteps | source/api/api_trace_io.cpp:25-113 | each operation of the machine does to the stream named, if there is one in the right state, what the provider's method does, and nothing to any other |
| TraceIo.PathsAreUnique | source/api/api_trace_io.cpp:25-64 | in every run no path is handed out twice, and no stream is consumed twice |
| TraceIo.NextPathIsNew | source/api/api_trace_io.cpp:29 | the printed counter differs from every path printed before |
| TraceIo.StreamsAreIsolated | source/api/api_trace_io.cpp:25-113 | in every run a stream holds what the operations on its own path made of it |
| TraceIo.ConsumptionDelivers | source/api/api_trace_io.cpp:51-64 | a consumption delivers exactly the bytes written under its path by then, of a closed stream |
| TraceIo.MemoryReadWriteStreamProvider.CreateStream | source/api/api_trace_io.cpp:25-38 | a new, empty, open stream under a path no stream had before; the others stay as they are |
| TraceIo.MemoryReadWriteStreamProvider.OpenReadWriteStream | source/api/api_trace_io.cpp:40-49 | another handle on a stream, at its start, or nothing for an unknown path |
| TraceIo.MemoryReadWriteStreamProvider.ConsumeStream | source/api/api_trace_io.cpp:51-64 | hands over the buffer and size of a closed stream and forgets it; fails for an open or unknown one and changes nothing |
| TraceIo.MemoryReadWriteStreamProvider.WriteThrough | source/api/api_trace_io.cpp:83-113 | a write through an open handle lays its bytes over those of that stream at the cursor, as the machine's write does, and changes no other stream |
| TraceIo.MemoryReadWriteStreamProvider.CloseThrough | source/api/api_trace_io.cpp:78-81 | closing through a handle keeps that stream's bytes and closes it, as the machine's closing does |
| TraceAdapter.StagesAgree | source/api/api_data.h:111-184 | the coarse stage of a status is the abstraction of its detailed stage |
| TraceAdapter.CoarseStageIs | source/api/api_data.h:86-139 | for exactly which statuses, and reasons of a disabled one, each coarse stage is reported |
| TraceAdapter.DetailedStageIs | source/api/api_data.h:141-184 | the detailed stages tell capturing, dumping and processing apart and are the coarse ones otherwise |
| TraceAdapter.PolledStageIsCoarse | source/api/trace_source_adapter.cpp:72-97 | in every run the polled stage is the abstraction of the last detailed stage |
| TraceAdapter.NotesFormAChain | source/api/trace_source_adapter.cpp:83-96 | while one callback stays registered its notifications lead in a chain from the stage it started in to the current one, one for each change |
| TraceAdapter.ChainLinks | source/api/trace_source_adapter.cpp:83-96 | in such a chain each notification starts where the one before ended, and none ends where it starts |
| TraceAdapter.SilentWithoutCallback | source/api/trace_source_adapter.cpp:83-96 | without a callback nobody is notified, though the stage moves on |
| TraceAdapter.TraceSourceAdapter.OnTraceStatusEvent | source/api/trace_source_adapter.cpp:72-97 | updates both stages and notifies the callback of a change |
| TraceAdapter.TraceSourceAdapter.SetStatusCallback | source/api/trace_source_adapter.cpp:290-294 | registers a callback and changes nothing else |
| TraceAdapter.TraceSourceAdapter.SetTraceFinishedCallback | source/api/trace_source_adapter.cpp:284-288 | registers or takes back the callback and changes nothing else |
| TraceAdapter.CompletionFollowsLedger | source/api/trace_source_adapter.cpp:28-70 | what the handler does to streams, buffers and reports is the ledger's completion: a ledger that represented the adapter before represents it, after its completion, afterwards |
| TraceAdapter.TraceSourceAdapter.OnTraceCompletionEvent | source/api/trace_source_adapter.cpp:28-70 | reports a failure, an abort or an unknown end as such and without data, or a closed stream's bytes, whose block it frees once; else leaves all streams |
| TraceAdapter.CompletionReports | source/api/api_data.h:68-82 | what a registered callback is told of each kind of end: failure, abort or unknown without data, success with the bytes of a closed stream, nothing of an open or unknown one |
| TraceAdapter.RegisteredIff | source/api/trace_source_adapter.cpp:284-288 | in every run a callback is registered exactly when the last registration says so |
| TraceAdapter.TraceSourceAdapter.HandOverStream | source/api/trace_source_adapter.cpp:56-69 | the bytes lent to the callback are those of the stream, and no stream left uses the freed block |
| TraceAdapter.BlocksAreAccountedFor | source/api/trace_source_adapter.cpp:28-70 | in every run each block ever allocated is the one block of one stream, or was released exactly once; capacities fit |
| TraceAdapter.WriteMovesIff | source/api/api_trace_io.cpp:85-102 | a write takes a new block exactly when the bytes and one more do not fit the old one, and leaves the blocks of all other streams alone |
| TraceAdapter.NothingLostIffNoStreamLeft | source/api/trace_source_adapter.cpp:28-70 | every block has been released exactly when no stream is left |
| TraceAdapter.CompletionReleasesIff | source/api/trace_source_adapter.cpp:39-69 | a completion gives the buffer back exactly when a callback is registered, the trace succeeded and the stream is closed |
| TraceAdapter.StreamsAreTheProviders | source/api/api_trace_io.cpp:25-64 | counting blocks leaves the streams what the provider's own machine makes of them |
| TraceAdapter.ReportsAreConsumptions | source/api/trace_source_adapter.cpp:56-69 | the successful reports are the consumed streams, one for each, in order |
| TraceAdapter.ReportDeliversTheTrace | source/api/trace_source_adapter.cpp:56-69 | each successful report carries exactly the bytes written to one closed stream, and no other report is of that stream |
| CaptureContext.EnableSucceedsIff | source/api/capture_context.cpp:181-222 | the exact condition under which a feature gets enabled; the enabled set changes exactly then, by that feature |
| CaptureContext.EnableByCases | source/api/capture_context.cpp:181-222 | result, enabled features and adapters of every request: refused ones change nothing, a failed configuration leaves the adapter on, a failing driver turns it off |
| CaptureContext.DisableSucceedsIff | source/api/capture_context.cpp:312-334 | disabling succeeds exactly when nothing is connected and the feature is enabled; it takes away that feature and its adapter, and otherwise changes nothing and says why |
| CaptureContext.DisableUndoesEnable | source/api/capture_context.cpp:312-334 | disabling a feature just enabled restores the enabled set |
| CaptureContext.AdapterStrandedIff | source/api/capture_context.cpp:208-248 | in any state, exactly a failing configuration strands the requested adapter, a later request that gets further frees it, and no other adapter is affected |
| CaptureContext.CrashAnalysisIsExclusive | source/api/capture_context.cpp:196-222 | in every run crash analysis is enabled only alone, and what is enabled has its adapter on |
| CaptureContext.ProcessIffConnection | source/api/client_manager.cpp:96-121 | in every run a process is recorded exactly while some connection is live |
| CaptureContext.WaitingIff | source/api/client_manager.cpp:123-161 | in every run a client waits to connect exactly when it was accepted and has not connected since |
| CaptureContext.LiveIff | source/api/client_manager.cpp:96-121 | in every run a connection is live exactly when a client that waited has made it and it has not ended since, whatever became of the others |
| CaptureContext.ProcessIsTheFirst | source/api/client_manager.cpp:96-109 | in every run the recorded process is that of the connection made when none was live, and some connection has been live ever since |
| CaptureContext.FeaturesFrozenWhileConnected | source/api/capture_context.cpp:196-200 | from the first connection of a process until its last is gone the features do not change, whatever is requested |
| CaptureContext.FrozenUntilAllHaveLeft | source/api/capture_context.cpp:196-200 | the same on the events: features do not change as long as at every moment some connection had been made and had not ended |
| CaptureContext.OneProcessIffAsserted | source/api/client_manager.cpp:99-106 | a new connection keeps all connections in one process exactly when the asserted condition holds |
| CaptureContext.AllLiveAreOneProcess | source/api/client_manager.cpp:96-121 | in every run that meets the assertion all live connections belong to the recorded process |
| CaptureContext.AssertedIffAgree | source/api/client_manager.cpp:96-121 | however the clients accepted so far connect and disconnect, the assertion holds, exactly when each of them fits the connected process and all are of one process |
| CaptureContext.DecisionAgreesIff | source/api/client_manager.cpp:123-161 | a decision keeps them so exactly when it turns the client away or those waiting are of the client's process |
| CaptureContext.AgreedIffDecidedAlike | source/api/client_manager.cpp:96-161 | they are so throughout a run exactly when every decision of the run was of that kind |
| CaptureContext.DecidedAlikeSuffices | source/api/client_manager.cpp:96-161 | in every run decided that way, several clients of one process waiting together included, the assertion holds at each connection, and at each that is still to come |
| CaptureContext.TwoProcessesIff | source/api/client_manager.cpp:96-161 | from a state with one process, the accepted clients can bring in a connection of another exactly when they do not agree |
| CaptureContext.TwoProcessesCanBeLive | source/api/client_manager.cpp:123-161 | a concrete run, for any two clients of different processes, in which both are live together |
| CaptureContext.NobodyBlockedConnects | source/api/client_manager.cpp:123-161 | in every run each live or accepted connection was accepted when no blocklist pattern matched its file name and the filter agreed |
| CaptureContext.ClearedMeansNoPatternMatched | source/api/client_manager.cpp:123-161 | the same, spelled out over the patterns at the moment of the decision |
| CaptureContext.AcceptancesAreDecisions | source/api/client_manager.cpp:123-161 | in every run the recorded acceptances are the decisions that did not turn the client away, each with the blocklist of its moment |
| CaptureContext.LiveWereCleared | source/api/client_manager.cpp:123-161 | in every run there was, for each live connection, a decision on its client at which no pattern of the blocklist matched its file name and the filter agreed |
| CaptureContext.AcceptedIff | source/api/client_manager.cpp:123-161 | the exact condition under which a client is accepted |
| CaptureContext.RecordedPathIsWholeIff | source/api/client_manager.cpp:163-182 | the recorded path is as much of the path as fits in 1024 bytes with its terminator, the whole of it exactly when that fits, and a stand-in without one |
| CaptureContext.ClientManager.ShouldClientBeIgnored | source/api/client_manager.cpp:123-161 | decides as specified; the user hears of a blocked client exactly when the blocklist, not another process, turned it away |
| CaptureContext.ClientManager.OnDriverConnected | source/api/client_manager.cpp:96-109 | adds the connection to the live ones; the first sets the process |
| CaptureContext.ClientManager.OnDriverDisconnected | source/api/client_manager.cpp:111-121 | takes that connection from the live ones, and clears the process exactly when none is left |
| CaptureContext.RdpCaptureContext.EnableFeature | source/api/capture_context.cpp:181-222 | result and new state for every request, with every way to fail |
| CaptureContext.RdpCaptureContext.EnableAdapter | source/api/capture_context.cpp:224-248 | switches the adapter on before configuring it, and leaves it on |
| CaptureContext.RdpCaptureContext.DisableFeature | source/api/capture_context.cpp:312-334 | result and new state for every request |
| SystemInfo.CopyStringField | source/api/capture_context.cpp:445-454 | the field reads back as the longest start of the text without a NUL that leaves room for the terminator; what lies behind the text is left alone |
| SystemInfo.FieldIsWholeIff | source/api/capture_context.cpp:445-454 | a field shows the start of its text, and all of it exactly when it fits and has no NUL |
| SystemInfo.FieldShows | source/api/capture_context.cpp:445-454 | that start is the only one of its kind, and what a field shows |
| SystemInfo.FailureRollsBack | source/api/capture_context.cpp:669-689 | for every pattern of allocation failures a failing report leaves exactly the blocks that were live before, none freed wrongly |
| SystemInfo.FreeUndoesGet | source/api/capture_context.cpp:669-726 | a successful report owns exactly the blocks that became live; freeing it, even twice, restores the live blocks, none freed wrongly |
| SystemInfo.FailsIff | source/api/capture_context.cpp:679-684 | the report fails exactly when the request for one of the three outer arrays it needs, counted from the start, is refused |
| SystemInfo.GrantsAfterHeaps | source/api/capture_context.cpp:614-640 | GPUs without heaps ask for nothing: a GPU's heap array is the request behind those of the GPUs before it that have heaps |
| SystemInfo.FreeReleases | source/api/capture_context.cpp:691-726 | freeing frees every block of a report once, and no other |
| SystemInfo.GatheredOwnsItsBlocks | source/api/capture_context.cpp:494-666 | whatever was gathered when an array was refused, all of it is distinct new blocks of the report |
| SystemInfo.ReportIsComplete | source/api/capture_context.cpp:457-666 | every field of every record shows its own source field, cut to its size; the drivers are those known for each device, else the system's unless nothing is known of it; counts are those of the arrays, arrays are missing only for empty lists, and heaps only when exactly their request was refused |
| SystemInfo.GpusAreReported | source/api/capture_context.cpp:572-666 | each GPU's details are its own, it has a heap count only with an array and lacks its heaps only when their array was refused; the exact condition for its driver index to be -1 or in range |
| SystemInfo.ResolvedIndexIsExactIff | source/api/capture_context.cpp:645-660 | the reported index is the GPU's driver, or -1 if that is not reported, exactly when an index in range leaves the sign bit alone |
| SystemInfo.ResolvedIndexInRangeIff | source/api/capture_context.cpp:645-660 | the reported index is -1 or in range exactly when no index in range has the sign bit set, except the one that converts to -1 |
| SystemInfo.PopulateDrivers | source/api/capture_context.cpp:494-531 | the per-device list, else the one system-wide driver unless it is empty |
| SystemInfo.Populate | source/api/capture_context.cpp:533-570 | an array with a record for each element, none for an empty list, or a failure |
| SystemInfo.PopulateGpus | source/api/capture_context.cpp:572-666 | the GPU records, each with its own heap array or none |
| SystemInfo.GetSystemInfo | source/api/capture_context.cpp:669-689 | fills the output with a complete report, or leaves it untouched and frees what was gathered |
| SystemInfo.FreeSystemInfo | source/api/capture_context.cpp:691-726 | frees the report's arrays and empties it of them; its other records stay |
| SystemInfo.FreeHeapArrays | source/api/capture_context.cpp:714-721 | the loop frees the heap arrays of the counted GPUs and leaves the rest of the report |
| BlocklistModel.MigrationKeepsNames | source/frontend/models/blocklist_model.cpp:92-113 | the migration of the old list loses no name and repeats none |
| BlocklistModel.MigrationIsNameByName | source/frontend/models/blocklist_model.cpp:95-110 | the migration goes name by name: each name goes, in order, behind those of its platform |
| BlocklistModel.WindowsIffExe | source/frontend/models/blocklist_model.cpp:100-109 | a name is taken for a Windows application exactly when it ends in .exe |
| BlocklistModel.MergeCovers | source/frontend/models/blocklist_model.cpp:186-212 | merging keeps the list in front and brings in exactly the defaults that are missing and not removed |
| BlocklistModel.MergeIsOneByOne | source/frontend/models/blocklist_model.cpp:197-209 | defaults are merged one by one: each is appended, once, if it is missing and was not removed |
| BlocklistModel.MergeIsIdleIff | source/frontend/models/blocklist_model.cpp:186-212 | it changes nothing exactly when every default is in the list or removed |
| BlocklistModel.SavedReloadsIff | source/frontend/models/blocklist_model.cpp:56-274 | what is saved is loaded again exactly when the lists cover the defaults |
| BlocklistModel.LoadIsIdempotent | source/frontend/models/blocklist_model.cpp:56-217 | loading covers the defaults, and loading again changes nothing, not even after a migration |
| BlocklistModel.LoadsWhatIsStored | source/frontend/models/blocklist_model.cpp:56-217 | a load takes the names of an old file's flat list, each with its platform, or the lists of a newer file, or nothing, and merges the missing defaults behind them; an old file becomes one of version 2 |
| BlocklistModel.AddedIsLast | source/frontend/models/blocklist_model.cpp:325-353 | an added application is the last row of the current platform's list, in the model, in the settings and after a load; nothing else changes |
| BlocklistModel.EditedIsRenamed | source/frontend/models/blocklist_model.cpp:436-463 | a renamed row is renamed, in the model and in the settings, and nothing else changes |
| BlocklistModel.RefusedChangesNothing | source/frontend/models/blocklist_model.cpp:325-463 | without a platform, with an empty name or one that is matched nothing changes |
| BlocklistModel.RowsAreRemoved | source/frontend/models/blocklist_model.cpp:465-495 | the removed rows go, the others stay in order, and the defaults among the removed are remembered with those remembered before; nothing else changes |
| BlocklistModel.RestoredIsDefault | source/frontend/models/blocklist_model.cpp:306-323 | restoring gives the current platform its defaults, leaves the others their lists, and forgets all removals |
| BlocklistModel.RunsStaySteady | source/frontend/models/blocklist_model.cpp:56-495 | in every run of loads, platform changes, additions and removals, from any settings, every default is in its list or remembered as removed and a load reproduces the model exactly |
| BlocklistModel.RemovedStaysRemoved | source/frontend/models/blocklist_model.cpp:476-490 | a removed default stays away through every run that neither names it again nor restores the defaults |
| BlocklistModel.RemovalIsRememberedIff | source/frontend/models/blocklist_model.cpp:465-495 | removing rows, any number at once, makes a name among them gone from list and file and remembered exactly when it is a default or was removed before and no row of it is left |
| BlocklistModel.EditReloadsIff | source/frontend/models/blocklist_model.cpp:436-463 | a renamed row survives a load exactly when its old name is no default, was removed before, or has another row |
| BlocklistModel.RestoreThenLoadHasAllDefaults | source/frontend/models/blocklist_model.cpp:306-323 | after restoring, a load has every default of every platform |
| BlocklistModel.RestoreResetsAllIff | source/frontend/models/blocklist_model.cpp:306-323 | restoring gives all platforms their default lists exactly when those that are not current have them already |
| BlocklistModel.BlocklistModel.Load | source/frontend/models/blocklist_model.cpp:56-217 | the stored lists, migrated if old, with the missing defaults appended |
| BlocklistModel.BlocklistModel.SplitByPlatform | source/frontend/models/blocklist_model.cpp:95-110 | executables go to the Windows list and all else to the Linux one, in order |
| BlocklistModel.BlocklistModel.MergeDefaults | source/frontend/models/blocklist_model.cpp:197-209 | the loop over one platform's defaults |
| BlocklistModel.BlocklistModel.Save | source/frontend/models/blocklist_model.cpp:219-274 | stores lists, removed defaults and version 3, and leaves the old flat list in place |
| BlocklistModel.BlocklistModel.SetPlatform | source/frontend/models/blocklist_model.cpp:281-304 | a platform change loads anew |
| BlocklistModel.BlocklistModel.AddApplication | source/frontend/models/blocklist_model.cpp:325-353 | appends to the current platform's list and saves; nothing happens without a platform, for an empty name, or for one that is matched already |
| BlocklistModel.BlocklistModel.RemoveEach | source/frontend/models/blocklist_model.cpp:474-486 | the loop removes exactly the asked rows and remembers those that are defaults |
| BlocklistModel.BlocklistModel.RemoveRows | source/frontend/models/blocklist_model.cpp:465-495 | removes the rows and saves, or refuses a negative row |
| BlocklistModel.BlocklistModel.SetData | source/frontend/models/blocklist_model.cpp:436-463 | renames the row and saves, or refuses an empty or matched name |
| BlocklistModel.BlocklistModel.RestoreDefaults | source/frontend/models/blocklist_model.cpp:306-323 | the loop over the platforms resets the current list and forgets all removals |
| TabStrip.StripInsert | source/frontend/capture_tab_widget.cpp:208-236 | the tab of a newly shown module goes behind those of the modules before it in model order |
| TabStrip.PositionCounts | source/frontend/capture_tab_widget.cpp:208-236 | the insertion loop counts exactly the shown modules before the new one, system modules passed over |
| TabStrip.InsertKeepsOrder | source/frontend/capture_tab_widget.cpp:208-236 | inserting where the loop says gives the strip of the larger set |
| TabStrip.AddShows | source/frontend/capture_tab_widget.cpp:193-239 | showing a module, shown already or not, gives the strip of the set with it |
| TabStrip.RemoveShows | source/frontend/capture_tab_widget.cpp:241-255 | hiding a module, shown or not, gives the strip of the set without it |
| TabStrip.StripIsOrdered | source/frontend/capture_tab_widget.cpp:164-255 | after any run of status changes the tabs are exactly the shown modules' in model order, each once, or exactly the placeholder, and the counter is their number |
| TabStrip.TabsAreThoseEnabledLast | source/frontend/capture_tab_widget.cpp:64-255 | from set-up on, after any run of status changes, a module has a tab exactly when it is listed, is no system module and was enabled last; the placeholder stands alone, exactly when no module has one |
| TabStrip.TabsFollowTheModules | source/frontend/capture_tab_widget.cpp:64-255 | the tabs come in the order of the modules, each module's once, and the counter counts those that are not the placeholder |
| TabStrip.SetUpShows | source/frontend/capture_tab_widget.cpp:64-96 | after set-up the strip shows the enabled modules |
| TabStrip.SetUpShowsExactlyTheEnabled | source/frontend/capture_tab_widget.cpp:64-96 | after set-up a module has a tab exactly when it is enabled and no system module |
| TabStrip.SetUpViews | source/frontend/capture_tab_widget.cpp:79-93 | exactly the modules that are not system modules have a view |
| TabStrip.CaptureTabWidget.constructor | source/frontend/capture_tab_widget.cpp:64-96 | the set-up loop |
| TabStrip.CaptureTabWidget.GetTabIndexForModule | source/frontend/capture_tab_widget.cpp:257-274 | the first place of the module's view, or -1 |
| TabStrip.CaptureTabWidget.InsertInOrder | source/frontend/capture_tab_widget.cpp:207-236 | the insertion loop |
| TabStrip.CaptureTabWidget.AddModuleView | source/frontend/capture_tab_widget.cpp:193-239 | removes, drops the placeholder, inserts and counts as specified |
| TabStrip.CaptureTabWidget.RemoveModuleView | source/frontend/capture_tab_widget.cpp:241-255 | removes the tab and counts, the placeholder replacing the last |
| TabStrip.CaptureTabWidget.OnModuleStatusChanged | source/frontend/capture_tab_widget.cpp:164-179 | system modules are passed over, others shown or hidden |

## Left out

- TraceIo.MemoryReadWriteStream.Write: assumes that a larger block is always to be had, as the source does.
- CaptureContext.NobodyBlockedConnects: a client keeps its path between decision and connection, although the source queries it twice.
- BlocklistModel.BlocklistModel.SplitByPlatform: takes the slash for the only separator of a file name.
- BlocklistModel.BlocklistModel.RemoveRows: is called only for rows that exist, as Qt's views do.
- The wait loop as one method: its threads interleave, so it is modelled step by step; only the callbacks, the signal handler and the claim under the mutex are methods.
- Handing blocklist entries out and back (`GetEntries`, `FreeEntries`), the blocklist file next to the library, and the locks of single-step operations.
- Manual captures, progress output, help, clock modes, system-information printing and the capture wrapper of the CLI.
- Starting the process itself, and its POSIX variant, which passes an argument vector without quoting.
- Devtrace and driver internals: the driver's feature flags (profiling and ray tracing share one), adapter configuration, clocks, connection lists and trace requests.
- Data races on fields the source reads without a lock, beyond the interleavings of single accesses in the auto-capture protocol.
- Wrap-around of 64-bit sizes and of the stream counter, and failing allocations inside streams, which the source does not check for.
- In-place filling of the report's arrays and aliasing between them: arrays are values known by their block.
- Matching by `QRegularExpression` in the GUI's blocklist (its verdict is an input), trimming by Qt, inserting blank rows, and the file format of `QSettings`, including array elements behind the stored size.
- Widgets, styles, signals and the current tab; closing a tab, which disables its module and so arrives as a status change.
- The connection filter of the GUI's application model, which repeats the client manager's under Qt state.
- The conversion of driver descriptions to APIs.
