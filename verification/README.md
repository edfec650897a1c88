# WhyRun: a verified model

WhyRun runs a command, or an interactive bash session, under ptrace. It turns the interleaved
stops of all traced tasks into semantic events, attributes each event to the command that
caused it, folds the events into summary tables of a capsule, and reads the tables back,
filtered by command or for the whole run.

This project models that pipeline in Dafny and proves what holds across it. Objects that the
program updates in place are classes (`ExecutionState`, `CommandProtocol`,
`CommandChannelTracker`, `PtraceCollector`, `CapsuleWriter`); each of their methods is proved
equal to a step function, and the properties are lemmas about those functions and about whole
runs of them.

| module | role |
|---|---|
| `Wrappers`, `Text`, `Events`, `Ordering` | results, decimal and hexadecimal text, the values exchanged, string order |
| `Paths`, `Directories` | lexical normalisation; different ways to name one file |
| `Tracker`, `ExecutionTracking`, `Runs` | the execution state machine: step functions, the class, runs and assumptions |
| `Reporting` | what each callback puts into the log, said without the branches that produce it |
| `Attribution`, `MarkerLanguage`, `Backdating`, `StartTimes`, `Provenance`, `Descriptors` | properties of runs |
| `Protocol`, `Bash`, `Channel`, `Collecting`, `Session` | the command channel from printf to callbacks, and sessions from end to end |
| `Capsule`, `Columns`, `Queries`, `Filtering`, `Recording`, `CommandTable`, `Showing`, `Diff` | the incremental store and its columns, the queries and what their answers count, how they agree, the comparison |
| `ShellWords`, `Json` | the two printers and their inverses |

## Assumptions on runs

A run is a setup followed by any sequence of callbacks. The assumptions are predicates, and
every lemma names the ones it needs; several need none.

* `Runs.FreshPids`: a created task's id is not yet known to the tracker.
* `Runs.Announced`: a task is reported as created before it acts.
* `Runs.NoAfterExit`: nothing is reported for a thread group whose leader has exited.
* `Runs.Monotone`: the times of callbacks do not decrease; `Showing.Clocked`: they fit into 63 bits.
* `Backdating.SoundIds`, `Backdating.FreshIds`: no id is armed that the log carries unstarted, or at all.

Three findings. First, back-dating makes every stored capsule consistent, and that needs no
assumption on command ids: as long as nothing is reported after the shell's exit, an id that
the log carries was started, and the writer refuses a second start of it
(`Backdating.StartIsEarliest`, `Showing.TimelineBeginsWithStart`). Both conditions matter. In a
run type without NoAfterExit the shell's exit can drop an armed command whose id is armed again
(`Backdating.RearmedIdIsNotBackdated`; the collector cannot deliver such a run, because markers
come from system call stops, and a task has none after its end), and a restarted id gives a log that is not
back-dated but cannot be stored either (`Backdating.RestartedIdIsNotBackDated`).
`Backdating.ArmIsSafeExactly` gives the exact condition over all runs. Second, the prompt
function ends every active command whether or not it was started, so a session is acceptable
exactly if the DEBUG trap fires at least twice between two prompts (`Bash.AcceptableExactly`).
Third, the normal form of a path is computed at every step, and `Directories` shows that this
loses nothing.

Characters stand for bytes, one byte each.

## Model

| member | source | states |
|---|---|---|
| ExecutionTracking.ExecutionState.AddInitialProcess | src/execution_state.cpp:174-196 | The root is set up; in command mode command 1 is active from the start and its start event is emitted |
| ExecutionTracking.ExecutionState.Emit | src/execution_state.cpp:215-226 | An event without a command takes its process's, unless the root is armed but not started |
| ExecutionTracking.ExecutionState.OnCommandMarker | src/execution_state.cpp:228-274 | Refines the marker step: whole new state and event, or the exception with nothing changed; keeps the invariant |
| ExecutionTracking.ExecutionState.OnProcessExec | src/execution_state.cpp:276-297 | Refines the exec step, unannounced processes included |
| ExecutionTracking.ExecutionState.OnProcessCreated | src/execution_state.cpp:299-336 | Refines the creation step: threads share, forks copy, the first child of an armed root notes the time |
| ExecutionTracking.ExecutionState.OnProcessExit | src/execution_state.cpp:338-378 | Refines the exit step: the leader's exit, the closing of the shell's command |
| ExecutionTracking.ExecutionState.OnSyscallExit | src/execution_state.cpp:403-556 | Refines the system call step: whole new state and events |
| ExecutionTracking.ExecutionState.FollowCall | src/execution_state.cpp:417-556 | Every branch: the process afterwards and the event emitted |
| ExecutionTracking.ExecutionState.ForgetThread | src/execution_state.cpp:558-560 | The thread is forgotten, nothing else changes |
| Runs.ReachableIsValid | src/execution_state.cpp:174-378 | In every reachable state processes stand under their ids, threads lead to a process in one hop, no process is lost, and a command is active exactly if the root carries its id |
| Runs.StepInherits | src/execution_state.cpp:308-322 | A known process keeps all that the callback is not about; a forked process is a copy of its parent but for the ids; one found at its exec has no parent, command or descriptors |
| Runs.StepReports | src/execution_state.cpp:215-226 | Every new event is about the actor's process, and below the root carries that process's command |
| Tracker.SyscallFrame | src/execution_state.cpp:403-556 | A system call changes no field but table and directory; its event carries the call's time, result and errno |
| Reporting.OpenIsReported | src/execution_state.cpp:417-435 | Every open is one file_open event, failed ones included: where its path leads, the result, the error number of results from -4095 to -1 and 0 otherwise |
| Reporting.OpenAtIsReported | src/execution_state.cpp:438-459 | The same for openat and openat2, relative to the directory descriptor, an unreadable path standing for its address |
| Reporting.OpenAtPrints | src/execution_state.cpp:448-463 | The flags printed are those of the call, or of the structure, 0 if that cannot be read |
| Reporting.OpenIsTracked | src/execution_state.cpp:430-467 | A successful open changes one descriptor: the reported path, a directory exactly if bit 16 of the flags is set |
| Reporting.TransferIsReported | src/execution_state.cpp:469-482 | A read of a tracked file is one file_read event and a write one file_write event, with the file's name; others are none |
| Reporting.ConnectIsReported | src/execution_state.cpp:518-536 | A connect to a decoded address is one event: network_connect or local_ipc_connect as the address is, with the endpoint as resource; otherwise none |
| Reporting.OthersAreSilent | src/execution_state.cpp:403-416 | No other call is reported, and calls of unknown threads change nothing |
| Reporting.ForkIsReported | src/execution_state.cpp:315-336 | Every creation that is not a thread is one process_fork event of the parent that names the child and its program |
| Reporting.ThreadIsSilent | src/execution_state.cpp:308-313 | A clone with bit 16 of the flags set adds a thread and is not reported |
| Reporting.ExecIsReported | src/execution_state.cpp:276-297 | Every exec is one process_exec event; the program is the exe link or unknown, and a process found by it has the directory of the cwd link |
| Reporting.ExitIsReported | src/execution_state.cpp:338-363 | The end of a leader is one process_exit event with its program and the exit code, or 128 and the signal |
| Reporting.ExitEndsCommand | src/execution_state.cpp:365-376 | If the shell ends while a command is running, a command_end of that command follows with the same result and the shell's directory; otherwise nothing follows |
| Reporting.HexDenotes | src/execution_state.cpp:44-48 | The digits of an unreadable address denote it, lower-case and without leading zeros |
| Reporting.SocketIsTracked | src/execution_state.cpp:510-536 | A new socket has no endpoint; a connect to a decoded address names the tracked socket and changes no other descriptor |
| Reporting.FirstProcess | src/execution_state.cpp:174-186 | At first the root is the only process and thread, in the given directory, without parent, program or descriptors |
| Reporting.FirstEvent | src/execution_state.cpp:174-196 | Command mode begins with the start of command 1 at the time of the setup; a session begins with an empty log |
| Attribution.CommandIsForLife | src/execution_state.cpp:318-322 | A process other than the root keeps its command through any later callbacks |
| Attribution.EventsCarryCommand | src/execution_state.cpp:215-226 | Every event of such a process carries the command that the process has at the end |
| Attribution.LineageSharesCommand | src/execution_state.cpp:315-335 | Along any chain of parents below the root the command is the same |
| Attribution.SubtreeKeepsItsCommand | README.md:139 | Whatever happens later, a process forked by the shell, its descendants and all their events carry the command that the shell had at the fork |
| MarkerLanguage.MarkerStep | src/execution_state.cpp:228-274 | In any valid state a marker of the shell is accepted exactly if it extends (Arm i, Start i, End i)* |
| MarkerLanguage.AcceptedExactly | src/execution_state.cpp:228-274 | Until the shell exits, a run is accepted iff the shell's markers form a prefix of (Arm i, Start i, End i)*, whatever is interleaved |
| MarkerLanguage.LogIsBracketed | src/execution_state.cpp:246-273 | In every run the command events are a prefix of (start i, end i)*, one being open exactly while a started command is active |
| MarkerLanguage.NoneOpenAfterExit | src/execution_state.cpp:351-376 | From the shell's exit to the end of the run no command is active and none is left open in the log |
| MarkerLanguage.NoneOpenAtExit | src/execution_state.cpp:351-376 | Right after the shell's exit none is left open, whatever was reported before |
| MarkerLanguage.ShellFollowsBrackets | src/execution_state.cpp:215-226 | An event of the shell, forks aside, carries exactly the command that the log before it leaves open |
| MarkerLanguage.MarkersAreLogged | src/execution_state.cpp:246-273 | The command events say exactly what the accepted markers said: ids, texts, directories, exit codes, in order |
| Backdating.StartIsEarliest | src/execution_state.cpp:250-258 | If nothing follows a process's exit, the clock is monotone and each command is started once in the log, no event is older than the start of its command; ids may be armed again |
| StartTimes.StartIsTimed | src/execution_state.cpp:250-251 | In any run an accepted start marker adds one start event, at the time of the first fork that the log has of the shell under this id since the arming, or else of the marker |
| StartTimes.StartsAreTimed | src/execution_state.cpp:250-258 | Every start event of a log has the time that its marker and the log before it demand |
| StartTimes.FirstForkIsEarliest | src/execution_state.cpp:324-327 | Under a monotone clock no such fork is earlier than the first |
| StartTimes.RowIsTimed | src/sqlite_store.cpp:330-345 | The stored row of every command has this time |
| Backdating.SoundIdsAreBackDated | src/execution_state.cpp:250-258 | The same for every run that arms no id which is carried by the log but was never started |
| Backdating.NoAfterExitIsSound | src/execution_state.cpp:237-244 | A shell that marks nothing after its exit arms no such id |
| Backdating.FreshIdsAreBackDated | src/execution_state.cpp:250-258 | With ids that the log does not carry, each command has one start event and no event of it is older |
| Backdating.FreshIdsStartOnce | src/execution_state.cpp:246-258 | Such ids start each command once, whatever the clock does |
| Backdating.ArmIsSafeExactly | src/execution_state.cpp:237-244 | Over all runs, an accepted arm marker keeps every storable continuation back-dated if and only if its id was started or is not carried by the log |
| Backdating.UsedIdIsNotBackDated | src/execution_state.cpp:237-258 | Arming an id that the log carries and starting it a tick later gives a start later than an event of it |
| Backdating.RearmedIdIsNotBackdated | src/execution_state.cpp:351-376 | Without NoAfterExit the property fails: a concrete accepted run, each command started once, that is not back-dated |
| Backdating.RestartedIdIsNotBackDated | src/execution_state.cpp:237-258 | Without single starts it fails for a living shell: Arm 5, Start 5, End 5, Arm 5, Start 5, which the writer refuses |
| Backdating.DistinctIdsAreFresh | src/execution_state.cpp:237-244 | Ids that are never armed twice are fresh |
| Provenance.TransfersWereOpened | src/execution_state.cpp:427-507 | In every run, without assumptions, a read or write names a resource that an earlier event opened with success |
| Showing.FileRowsWereOpened | src/sqlite_store.cpp:358-375 | Every key of file_activity was opened with success earlier in the log than it was used |
| Provenance.CallNamesOpened | src/execution_state.cpp:417-516 | One system call puts no name of a file into a table that it has not just reported as opened |
| Descriptors.TablesRefineKernel | src/execution_state.cpp:299-322 | For every interleaving the kernel allows, with pipes and other unobserved calls in between, each task's tracked table agrees with a kernel in which tasks share or copy table objects |
| Descriptors.TrackedAgrees | src/execution_state.cpp:417-516 | Each single call keeps tracked and kernel table in agreement |
| Descriptors.TransferNamesOpenFile | src/execution_state.cpp:469-482 | A read or write is reported exactly if the kernel's descriptor leads to an observed file, under the name of its opening |
| Paths.NormalizeFixed | src/execution_state.cpp:50-56 | Results of normalize_path are fixed points |
| Paths.NormalizeCompose | src/execution_state.cpp:380-401 | Resolving a and then b leads where a/b leads, from any directory |
| Paths.DotDotCancels | src/execution_state.cpp:50-56 | A name followed by dot-dot can be taken out anywhere |
| Paths.DotDotAtRoot | src/execution_state.cpp:50-56 | Dot-dot after the root directory can be taken out |
| Paths.EmptyPieceDisappears | src/execution_state.cpp:50-56 | Repeated separators and dots disappear anywhere in a path |
| Paths.NameAndDotDotDisappear | src/execution_state.cpp:50-56 | So does a name with dot-dot behind it |
| Paths.LastSeparatorDisappears | src/execution_state.cpp:52-54 | So does the separator at the end |
| Paths.PlainPathStays | src/execution_state.cpp:50-56 | A path of plain names is left as it is |
| Directories.RoutesAgree | src/execution_state.cpp:380-467 | chdir and open, openat from an opened directory, fchdir and open, and a plain open of a/b report one resource |
| Directories.CwdIsWalked | src/execution_state.cpp:538-556 | After any calls, chdir and fchdir included, the tracked directory is the one walked to, normalised if reached by name, and every path leads from it where it leads from the untouched chain of names |
| Directories.OpenAfterWalk | src/execution_state.cpp:417-467 | After any history an open reports the whole chain of names, normalised once |
| Protocol.CommandProtocol.Consume | src/bash_session.cpp:78-97 | The loop computes the parser's function of the portion: markers and kept bytes, or the first failure |
| Protocol.CommandProtocol.DecodeRecord | src/bash_session.cpp:105-137 | Decodes one record with all its failures |
| Protocol.CommandProtocol.Finish | src/bash_session.cpp:99-103 | Fails exactly if something is pending |
| Protocol.PortionsDoNotMatter | src/bash_session.cpp:78-97 | However the stream is cut, markers or failure are the same |
| Protocol.ParsesExactly | src/bash_session.cpp:78-97 | The parser refines splitting at NUL, grouping by four and decoding; it fails exactly if a field is too long or a group is bad |
| Protocol.SplitExists | src/bash_session.cpp:78-97 | Every byte stream splits in this way |
| Protocol.LeftoverIsSmall | src/bash_session.cpp:99-103 | At most three fields and a partial one of 64 KiB each are kept; finish succeeds iff the stream is whole records |
| Protocol.DecodesExactly | src/bash_session.cpp:105-137 | Exactly which records are accepted: the three types, the id, the empty field of an arm, the history mark, the status |
| Protocol.DecodedSays | src/bash_session.cpp:105-137 | What an accepted record means, field by field; the text is what stands between the first mark and at most one newline at the end |
| Protocol.FieldLimit | src/bash_session.cpp:81-86 | A field of 65536 bytes is accepted and a longer one is not |
| Bash.DecodeOfSent | src/bash_session.cpp:105-137 | A record printed by bash decodes to the marker, even if its text contains the history mark or ends in newlines |
| Bash.ReceivedAsSent | src/bash_session.cpp:22-55 | The bytes of any list of sendable markers are read back as that list, with nothing left over |
| Bash.PrintedFormats | src/bash_session.cpp:30-50 | The bytes of each of the three records |
| Bash.PromptSends | src/bash_session.cpp:38-55 | A prompt ends the command of the prompt before it, with the status and directory it sees, and arms the next number |
| Bash.TrapSends | src/bash_session.cpp:22-36 | The second trap after a prompt, and no other, starts the command |
| Bash.AcceptableExactly | src/bash_session.cpp:38-55 | The markers of a session are acceptable iff the trap fired at least twice between any two prompts |
| Bash.LaterPromptIsPaced | src/bash_session.cpp:41-46 | A prompt after fewer than two traps ends a command that was not started, and breaks the language |
| Bash.PromptAfterPromptIsRefused | src/bash_session.cpp:38-55 | A concrete badly paced session: two prompts without a trap between them send an end without its start |
| Channel.CommandChannelTracker.Observe | src/ptrace_collector.cpp:134-170 | The alias set after one finished call |
| Channel.AliasesAreExact | src/ptrace_collector.cpp:121-171 | Through any calls that a kernel allows, pipes and calls with large results included, the aliases are always exactly the descriptors that lead to the channel's open file, if and only if no fcntl copy of one is overlooked |
| Channel.StepKeepsAliases | src/ptrace_collector.cpp:134-170 | A single call keeps the alias set exact if and only if it is not an overlooked copy of the channel's descriptor |
| Channel.HighCommandIsOverlooked | src/ptrace_collector.cpp:155-158 | A concrete fcntl call with a bit in the unused half of its command register makes a copy that is not followed |
| Channel.ReceivesExactly | src/ptrace_collector.cpp:129-132 | If no copy is overlooked, a write is received iff its descriptor leads to the channel |
| Collecting.PtraceCollector.Handle | src/ptrace_collector.cpp:339-458 | One turn of the loop: reader, state and log after the stop, or the exception |
| Collecting.PtraceCollector.Complete | src/ptrace_collector.cpp:384-417 | The exit stop of a system call: markers first, then aliases, then the call |
| Collecting.PtraceCollector.Deliver | src/ptrace_collector.cpp:394-412 | The markers of a channel write are handed over one by one until one is refused |
| Collecting.PtraceCollector.End | src/ptrace_collector.cpp:461-463 | A channel with an unfinished record is an error at the end |
| Collecting.CollectedIsTrace | src/ptrace_collector.cpp:325-459 | The loop ends well exactly if all stops can be read and the run of their callbacks is accepted, with that run's state and log |
| Collecting.HeardAsWritten | src/ptrace_collector.cpp:394-415 | The markers heard are those of the channel's whole byte stream, however the shell's writes cut it |
| Collecting.OnlyTheShellIsHeard | src/ptrace_collector.cpp:394-395 | Markers come from the shell's own thread only |
| Collecting.NoChannelNoMarkers | src/ptrace_collector.cpp:123-132 | Without a channel every stop can be read and no marker is heard |
| Collecting.CallsArePairs | src/ptrace_collector.cpp:378-392 | The calls of a thread are its stops taken two by two: number and arguments of the first, result and time of the second |
| Collecting.LivesArePairs | src/ptrace_collector.cpp:339-351 | The same for every life of a thread id: behind an end the pairing begins anew |
| Collecting.ListensExactly | src/ptrace_collector.cpp:394-415 | If the kernel allows the shell's calls and no copy of the channel's descriptor is overlooked, exactly the writes that reach the channel's open file are listened to |
| Collecting.BytesExactly | src/ptrace_collector.cpp:394-406 | Bytes are taken exactly from finished writes of the shell to a channel descriptor; more than 66560 or an unreadable buffer is an error |
| Collecting.ShellWriteIsRead | src/ptrace_collector.cpp:394-406 | A readable write of the shell is taken whole if it reaches the channel's open file, and not at all otherwise |
| Collecting.LivesAreHeard | src/ptrace_collector.cpp:339-448 | Creations, programs and ends of tasks become callbacks in the order of their stops, with the same data |
| Collecting.CloneTakesFlags | src/ptrace_collector.cpp:435-439 | The flags of a creation are the first argument of the call that its creator is in |
| Session.AcceptedFromShell | src/execution_state.cpp:228-274 | With markers from the shell only, a run is accepted iff they are in the language |
| Session.SessionIsNumbered | src/bash_session.cpp:47-50 | The k-th triple of markers bears the number k |
| Session.SessionIsRecorded | src/ptrace_collector.cpp:325-463 | From bash to log: recording succeeds iff the traps are well paced, leaves no byte over, and logs just what bash sent |
| Session.SessionIsStored | src/sqlite_store.cpp:330-345 | A recorded session has fresh ids and its whole log can be stored, whatever the clock does |
| Session.SessionTable | src/sqlite_store.cpp:330-357 | The command table holds what bash sent and nothing else: text and directory of every start, exit code and directory of its end |
| Session.SessionTimelines | src/show.cpp:260-268 | Every stored command of a recorded session has a timeline that begins with its start |
| Session.CommandIsRecorded | src/ptrace_collector.cpp:325-463 | In command mode recording and storing succeed, and the results for command 1 are those of the whole run |
| Capsule.CapsuleWriter.Emit | src/sqlite_store.cpp:310-425 | The tables after one event, or the exception that drops the capsule |
| Columns.EventTableIsLog | src/sqlite_store.cpp:310-328 | A stored log has one row for each event, in order, with its pid, tid, kind, resource, result, errno and metadata; time and command are equal below 2^63 |
| Columns.RowsOfLivesStay | src/sqlite_store.cpp:391-424 | In any log an event changes no process row but for the program after its exec and the end after its exit; a fork of a process that has a row changes nothing |
| Columns.NetworkRowsBalance | src/sqlite_store.cpp:376-390 | In any log every attempt in network_activity is a success or a failure |
| Columns.SequencesAreUnique | src/sqlite_store.cpp:334-345 | In any stored log no two commands have the same sequence number |
| Columns.ProcessTableTellsLives | src/sqlite_store.cpp:391-424 | If nothing follows a process's exit, the process rows are the processes forked or executed, with the time when that first happened and the time, exit code and signal of the end of each that has ended |
| Queries.FileTableIsFold | src/sqlite_store.cpp:358-375 | Each file row equals the counts and clamped sums over the event table, and the rows are the paths that occur |
| Queries.NetworkTableIsFold | src/sqlite_store.cpp:376-390 | Each network row equals its fold, attempts are successes plus failures, the last errno is that of the last insert |
| Queries.AttemptsBalance | src/show.cpp:151-158 | Recomputed attempts are successes plus failures |
| Queries.TotalsArePartitioned | src/show.cpp:83-90 | Every total is the sum of the totals per command and the unattributed part |
| Queries.TransfersAgree | src/show.cpp:83-96 | The unfiltered file query answers what the event table would |
| Queries.ConnectsAgree | src/show.cpp:115-130 | The unfiltered network query answers what the event table would, the last errno included |
| Filtering.FilesAreCounted | src/show.cpp:83-90 | The file query for any filter has the paths with passing rows, their number and the bytes of results above zero |
| Filtering.ConnectsAreCounted | src/show.cpp:115-126 | The network query has the endpoints with passing rows, their number, how many have errno 0 and how many a positive one, and the errno of the latest, the last inserted of equal times |
| Filtering.LocalConnectsAreCounted | src/show.cpp:151-158 | The local IPC query counts passing rows in the same way |
| Filtering.ErrorsAreCounted | src/show.cpp:173-180 | The error query has exactly the resource, kind and errno of passing rows with a positive errno, each with its number of rows |
| Filtering.PassingIsCarrying | src/show.cpp:83-90 | A row passes the filter for a command exactly if it carries it |
| Filtering.FilesOfPassing | src/show.cpp:83-90 | A filtered file query answers what the unfiltered one would over the passing rows alone |
| Filtering.ConnectsOfPassing | src/show.cpp:115-126 | The same for the network query, the last errno included |
| Filtering.LocalConnectsOfPassing | src/show.cpp:151-158 | The same for local IPC |
| Filtering.ErrorsOfPassing | src/show.cpp:173-180 | The same for errors |
| Filtering.AnswersAddUp | src/show.cpp:77-96 | For every path the answers for the commands, and for the unattributed rows, add up to the row of file_activity |
| Filtering.ConnectsAddUp | src/show.cpp:112-130 | The attempts and outcomes per command add up to those of the run |
| Filtering.LastErrnoOfCommand | src/show.cpp:120-124 | The last errno of the run is the last errno of one of its commands |
| Filtering.LocalConnectsAddUp | src/show.cpp:151-158 | Local IPC attempts and outcomes add up in the same way |
| Filtering.ErrorsAddUp | src/show.cpp:173-180 | So does the number of times that each failure occurred |
| Filtering.FileRowIsCounted | src/sqlite_store.cpp:358-375 | A row of file_activity holds the numbers of its path's read and write rows and of the bytes of those above zero |
| Filtering.NetworkRowIsCounted | src/sqlite_store.cpp:376-390 | A row of network_activity holds the number of attempts and outcomes and the errno of the last |
| Queries.TimelineSorts | src/show.cpp:263-267 | The timeline is the passing rows, all of them, in the order of time and kind |
| Queries.TimelineIsStable | src/show.cpp:263-267 | Rows that time and kind do not tell apart are shown in the order of their ids |
| Queries.TimelineMembers | src/show.cpp:263-267 | A row is shown iff it is in the table and passes the filter |
| Recording.LogIsReadable | src/sqlite_store.cpp:339-421 | Every logged number is printed such that the writer parses it back |
| Recording.StoredExactly | src/sqlite_store.cpp:330-345 | A readable log is stored iff each command starts once with an id of 63 bits; the command rows are then the start events, with shell, text, directory and time |
| Recording.RunIsStoredExactly | src/sqlite_store.cpp:330-345 | The same for the log of any run |
| CommandTable.TableIsBrackets | src/sqlite_store.cpp:330-357 | In a bracketed log there is one row for each bracket, complete with the end columns of its end event, and no other row |
| CommandTable.CommandTableOfRun | src/sqlite_store.cpp:330-357 | The same for every stored run, each row naming the shell |
| CommandTable.ShellExitEndsRow | src/execution_state.cpp:351-376 | If the shell ends while a command is running, the stored row has the time of that end, the shell's directory and the exit code, or 128 and the signal, whatever follows |
| CommandTable.CommandModeRow | src/execution_state.cpp:174-196 | In command mode the row of command 1 has the command line, directory and time of the setup |
| Recording.ProcessTableMirrors | src/sqlite_store.cpp:391-424 | After every callback the process rows have the tracker's parents and programs, all processes but perhaps the root being there |
| Recording.RootRowFromExec | src/sqlite_store.cpp:391-401 | The root has a row exactly once it has executed a program |
| Showing.TimelineBeginsWithStart | src/show.cpp:260-268 | A stored command's timeline begins with its start at the time printed as zero, and nothing shown is earlier; ids may be armed again |
| Showing.StoredIsBackDated | src/sqlite_store.cpp:330-345 | In a stored log no event is older than the start of its command |
| Showing.RunIsCommandOne | src/execution_state.cpp:174-226 | In command mode every event of the run carries command 1 |
| Showing.FilteredIsWhole | src/show.cpp:77-204 | In command mode the Files, Network, Local IPC and Errors results for command 1 are those of the whole run |
| Diff.LoadFiles | src/diff.cpp:59-72 | Both maps hold exactly the paths with calls, with calls and bytes |
| Diff.LoadNetwork | src/diff.cpp:74-81 | The map holds exactly the endpoints and their counts |
| Diff.LoadLocalIpc | src/diff.cpp:83-92 | The map holds exactly the resources and their counts |
| Diff.LoadedFilesAreCounted | src/diff.cpp:59-72 | What is loaded about a file counts the rows of the event table: calls and bytes of each direction |
| Diff.LoadedNetworkIsCounted | src/diff.cpp:74-81 | What is loaded about an endpoint counts its attempts and outcomes |
| Diff.LoadedLocalIpcIsCounted | src/diff.cpp:83-92 | The same for local IPC |
| Diff.PrintActivityDiff | src/diff.cpp:104-137 | Prints the specified lines and returns true iff the maps differ |
| Diff.PrintSetDiff | src/diff.cpp:139-155 | The same for sets |
| Diff.LookupOfPut | src/diff.cpp:63-72 | Assignment through operator[] is found again and changes no other key |
| Diff.LinesSayAll | src/diff.cpp:104-137 | About every name exactly the expected line is printed, once, or none if both sides agree |
| Diff.LinesInOrder | src/diff.cpp:109-135 | Removals and changes come first and additions behind them, both in ascending order of the names |
| Diff.ChangedLineSays | src/diff.cpp:114-124 | A changed line shows the calls of both sides, before and after, and their failures or bytes |
| Diff.SilentIfEqual | src/diff.cpp:104-137 | Nothing is printed iff the maps are equal |
| Diff.SwappedDiff | src/diff.cpp:104-137 | Swapping the sides swaps + and - and both sides of every change |
| Diff.ConnectionChangesAreShown | src/diff.cpp:114-119 | For recorded capsules every changed network or local IPC line shows two different numbers |
| Diff.FileChangesAreShown | src/diff.cpp:114-124 | So does every changed file line, for any capsules |
| ShellWords.ShellQuote | src/sqlite_store.cpp:181-200 | The loop computes the quoted argument |
| ShellWords.FormatCommand | src/sqlite_store.cpp:519-528 | The loop computes the formatted command |
| ShellWords.WordsOfFormat | src/sqlite_store.cpp:519-528 | A shell lexer for blanks, backslash and single quotes gives back exactly the argument list |
| ShellWords.FormatInjective | src/sqlite_store.cpp:519-528 | Different argument lists are formatted differently |
| ShellWords.PlainIsUnchanged | src/sqlite_store.cpp:181-187 | A nonempty argument of letters, digits and / _ - . : is printed as it is |
| ShellWords.OthersAreQuoted | src/sqlite_store.cpp:190-199 | Any other argument is in single quotes, with nothing else changed if it holds no quote |
| ShellWords.FormatOneMore | src/sqlite_store.cpp:519-528 | Arguments are separated by one space |
| Json.JsonEscape | src/sqlite_store.cpp:116-151 | The loop computes the escaped text |
| Json.MetadataJson | src/sqlite_store.cpp:153-169 | The method computes the printed object of the sorted entries |
| Json.PrintIsCanonical | src/sqlite_store.cpp:153-157 | The output does not depend on the map's iteration order |
| Json.ParseEscaped | src/sqlite_store.cpp:116-151 | A parsed escaped string is the original, control bytes included |
| Json.MetadataRoundTrip | src/sqlite_store.cpp:153-169 | A parser for JSON objects of strings recovers exactly the map |
| Json.EscapesAre | src/sqlite_store.cpp:116-151 | Seven short escapes, four digits for the other control bytes, no change for the rest |
| Json.PrintShape | src/sqlite_store.cpp:153-169 | Members follow in ascending order, with a comma between them and no blanks |
| Text.StollOfDecimal | src/sqlite_store.cpp:339-340 | stoll reads back what to_string printed |
| Text.FromCharsU64OfDecimal | src/bash_session.cpp:57-65 | from_chars reads back every printed id |
| Text.FromCharsIntOfDecimal | src/bash_session.cpp:67-74 | from_chars reads back every printed status |

## Left out

- ptrace, waitpid, signals and the setup of the tracee: a stop carries what the collector reads at it. Stops that lead to no callback, and the sets of live and configured tasks, are not modelled.
- How clone flags, /proc links, decoded socket addresses and open_how structures are read from the kernel or the tracee: they are inputs of the step. A channel buffer that can be read is taken to be the bytes written.
- Kernel behaviour that the tracker does not represent is not in the reference alphabet of `Descriptors`: close-on-exec at exec, CLONE_FILES without CLONE_THREAD, close_range, fcntl duplication in a process's table, and a failed close that still releases its descriptor.
- Descriptors.TablesRefineKernel: a kernel file bears the path under which its opening was reported; that this path means the right file is the subject of `Directories`, not of the kernel model.
- In `Channel` the shell does not exec and does not close descriptors by close_range; results that are descriptors fit into an int.
- Channel.ReceivesExactly: assumes that no fcntl copy is overlooked. The source compares the whole command register where the kernel looks at its lower half; `Channel.AliasesAreExact` is exact about this.
- Collecting.PtraceCollector.Handle: exceptions of the store during a stop are not in the loop; `Recording` says for whole logs when the store throws.
- forget_thread is modelled as a method but is no callback, because the collector never calls it.
- SQLite itself, transactions, the schema and 64-bit overflow of sums; tables are maps, and the metadata column is kept as a map (its printing is in `Json`).
- Capsule.CapsuleWriter.Emit: the primary key and the unique sequence of commands are the only constraints modelled.
- Backdating.ArmIsSafeExactly: an arm marker at the very last tick of a 64-bit clock is not covered, because no later start can follow it.
- bash itself: the two functions are modelled in what they send, not in how bash schedules traps; variables of bash wrap at 64 bits and sessions shorter than that are considered.
- std::sort, std::map and std::filesystem are modelled by functions; isalnum is that of the C locale, and root names of paths do not exist on POSIX systems.
- show_processes, show_commands, the headers, errno and event type names, the layout of the output, the sections of diff_capsules, main.cpp, and the choice and publishing of capsule paths: plumbing that would only add easy members.
