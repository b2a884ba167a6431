# A verified model of the privilege-separation executor, the JSON printer, the start-up protocol and the text folder

This project models four parts of OpenPegasus and proves what they promise.

**The executor** (`src/Executor`) is the small privileged process that opens files, starts provider
agents and authenticates local users on behalf of the server. Its modules build on each other:

* `CStrings` (bounded copy and append), `Glob` (wildcards), `Macros` (the linked list of macros),
  `Expander` (`${...}` in bounded buffers), `Policy` (the rule table and its checks),
  `PolicyDecisions` (exactly which paths the table allows), `ExecutorMacros` (the macros defined at
  start-up);
* `ChallengePaths`, `Decimal`, `Tokens` (names and contents of challenge files);
* `ExecutorWorld` (what each request does to files, descriptors and the executor's state, for every
  outcome of the system calls), `Executor` (the handlers, written as the source writes them and
  proved against that specification), `ExecutorSafety`, `ExecutorChallenges`, `ExecutorTokens`
  (what holds over all runs), `LocalAuthentication` (what that means after start-up);
* `Messages`, `Frames` (requests and replies as bytes), `Transport` (transfers over a
  socket), `Schedules` (time-outs and interruptions do no harm, and what comes arrives), `Parent`
  (the request loop), `ParentRuns` (what the loop does with any stream of bytes, however it
  arrives), `ParentService` (every whole frame is served);
* `Paths` (DirName) and `Argv` (handing the socket to the server on its command line).

**The JSON code** (`www/js/json2.js`): `JsonText` (code units, values, tokens, quote), `JsonPrinter`
(str and stringify), `JsonParser` (a reference parser for sections 2 to 7 of RFC 8259),
`JsonRoundTrip`, `JsonIndent` (indentation does not change the meaning), `JsonLayout` (where the
white space is), `JsonQuoting` (what is escaped, and how), `JsonFilter` (the text filter of parse
accepts every JSON text), `JsonPatterns` (what its regular expressions match), `JsonFilterRejects`
(what it keeps out), `JsonFilterExactly` (what it lets through), `JsonStageOne` (the first stage of
parse keeps the meaning) and `JsonStageOneExactly` (exactly when).

**The start-up protocol** (`StartUp`, `StartUpFaults`, `StartUpProgress`, `ServerStatus`): starters
that lock, look for a running server, write their PID and unlock, in all interleavings, with
crashes, stops and forced kills: at most one server, exactly which faults break that, and nobody
stuck.

**The text folder** of cimcli (`Fold`).

## How to read it

A loop or an object that changes in place is a method or a class, proved against a function on
values; what the source promises is proved about that function. Outcomes of system calls, clocks
and random bytes are parameters (`Env` in `ExecutorWorld`, the event schedules in `Transport`), so
that a statement holds for all of them. C strings are strings without nulls; buffers are arrays of
characters with a terminator.

Some promises hold only under a condition, or are false as first stated. For those the project
proves the exact condition:

* `Glob.MatcherIsGlobExactlyWhen`: the matcher decides the glob language exactly for patterns that
  do not end in two stars.
* `ChallengePaths.NeverSharedExactlyWhen`: the names of one user's challenges stay apart exactly if
  the buffer has room for the longest sequence number; `ChallengePaths.SharedExactlyWhen`: when two
  users share one.
* `ExecutorChallenges.OneTimeExactlyWhen`: challenges are used once exactly if no whole token gets
  under their names in other ways (from another process, by a renaming the policy allows) or stays
  there because a removal fails. Opening such a name for writing empties the file; what is written
  through the descriptor after that is a write by another process. After start-up the policy allows
  no such renaming (`LocalAuthentication`).
* `StartUp.SingleServer` and `StartUpFaults.FaultFreeExactly`: a run without faults has at most one
  server, and a run is without faults exactly if at no point of it two servers are there or can come
  about without a further fault. The faults are told at the step that makes them: a starter reads
  from the PID file the PID of its parent, although a server has got that PID; start-up goes on
  without the lock; it goes on without the PID file; the lock file is removed while a starter has it
  open or decides under it; a forced kill removes the PID file of a live server, or one that is being
  written. `StartUpFaults.SingleServerExactlyWhen`: none of the five kinds can be left out.
* `JsonFilterExactly.PassesExactly`: what the text filter of parse lets through.
* `JsonRoundTrip.RoundTripExactly` and `JsonIndent.SafeIndentExactly`: values come back exactly if
  their numbers are finite, and for all values exactly if the indentation is white space. The
  header comment of json2.js offers a non-breaking space entity as indentation, which is not.
* `JsonStageOne.EveryTextPasses` and `JsonStageOneExactly.StageOneExactly`: stage one of parse keeps
  the meaning of every JSON text, but turns some texts that are none into one: among the texts that
  are readable afterwards, exactly those with a null or with a backslash that starts no escape
  sequence.
* `Fold.TextLostExactly`: foldString drops its whole input exactly if that is one unbroken line as
  long as the indentation.

Where the code and its comments differ, the code is followed: `BuildLocalAuthFilePath` puts the
sequence number before the milliseconds, although its comment says timestamp first.

`dafny verify dfyconfig.toml` checks the whole project.

## Model

| member | source | states |
|---|---|---|
| `CStrings.Strlcpy` | src/Executor/Strlcpy.h:53-67 | The buffer holds the source cut to one less than its size, nothing past the terminator changes, and the result is the full length. |
| `CStrings.Strlcat` | src/Executor/Strlcat.h:53-94 | The buffer holds the old text and the new one, cut once; a buffer without terminator is left alone; the result is the length there would be without a bound. |
| `CStrings.CutAppend` | src/Executor/Strlcat.h:53-94 | Bounded appends compose: cutting after every append and cutting once at the end give the same text. |
| `Glob.Match` | src/Executor/Match.h:37-85 | Zero exactly for the accepted strings, by the loops and the recursion of the source, which end. |
| `Glob.InGlobIsLanguage` | src/Executor/Match.h:37-85 | The recursive form of the glob language is the language in which each star stands for any string. |
| `Glob.AcceptsExactly` | src/Executor/Match.h:37-85 | What is accepted is the glob language, except that a trailing run of two or more stars must cover at least one character; both directions, every pattern and string. |
| `Glob.MatcherIsGlobExactlyWhen` | src/Executor/Match.h:37-85 | For a pattern, the matcher decides the glob language on every string if and only if the pattern does not end in two stars. |
| `Glob.LiteralPattern` | src/Executor/Match.h:37-85 | A pattern without stars matches itself alone. |
| `Glob.PrefixPattern` | src/Executor/Match.h:37-85 | A pattern whose only star is its last character matches exactly the strings that start with the rest of it. |
| `Macros.MacroTable.FindMacro` | src/Executor/Macro.c:83-97 | Walking the linked list gives what the abstract list of definitions gives. |
| `Macros.MacroTable.DefineMacro` | src/Executor/Macro.c:109-153 | A new name is appended at the end and nothing else changes; a known name, or lack of memory, is refused; the list stays finite, acyclic and without repeated names. |
| `Macros.MacroTable.UndefineMacro` | src/Executor/Macro.c:165-194 | Exactly the one entry of the name is unlinked, the order of the others is kept, and an unknown name is refused. |
| `Macros.MacroTable.Unlink` | src/Executor/Macro.c:172-187 | Relinking around a node removes that node and keeps the chain valid. |
| `Macros.ListRefinesMap` | src/Executor/Macro.c:83-194 | Over any sequence of calls names stay unique and look-ups agree with a finite map. |
| `Macros.DefineUndefineRestores` | src/Executor/Macro.c:109-194 | Defining a new name and later undefining it leaves the list as if it had never been defined, whatever calls on other names lie between. |
| `Expander.ScanIsExpansion` | src/Executor/Macro.c:206-281 | The single pass is the reference expansion of the pieces the input is spelled by: values are never scanned again, and an unknown name or an unclosed reference fails. |
| `Expander.ExpandMacros` | src/Executor/Macro.c:206-281 | For every input, cut to 4095 characters, the status tells whether the pass succeeds, and the output buffer holds the first 4095 characters of what the pass yields, also on failure. |
| `Policy.CheckPolicy` | src/Executor/Policy.c:215-274 | The loop returns the flags of the first rule of the kind whose patterns match, or failure and zero flags. |
| `Policy.CheckOpenFilePolicy` | src/Executor/Policy.c:284-307 | The decision of the static table on an open request and its flags. |
| `Policy.CheckRemoveFilePolicy` | src/Executor/Policy.c:317-333 | The decision of the static table on a remove request. |
| `Policy.CheckRenameFilePolicy` | src/Executor/Policy.c:343-361 | The decision of the static table on a rename request. |
| `PolicyDecisions.OpenExactly` | src/Executor/Policy.c:79-307 | With macro values free of stars that fit the buffer: opening is allowed for exactly the listed paths and modes, with exactly the listed permissions. |
| `PolicyDecisions.RenameExactly` | src/Executor/Policy.c:79-361 | Renaming is allowed between exactly the listed pairs of paths. |
| `PolicyDecisions.RemoveExactly` | src/Executor/Policy.c:79-333 | Removing is allowed for exactly the listed paths. |
| `PolicyDecisions.OnlyReadOrWrite` | src/Executor/Policy.c:79-307 | Whatever the macros are worth, no mode but r and w is ever allowed: the append branch of the open handler is never reached. |
| `ExecutorMacros.DefineExecutorMacros` | src/Executor/main.c:136-283 | All settings resolved means success, and then the macro list holds the nineteen definitions in the order of the source. |
| `ExecutorMacros.PolicyMacrosDefined` | src/Executor/main.c:136-283 | After that every macro of the policy table has its configured value, and the agent paths are those of the internal bin directory. |
| `ExecutorMacros.ProgramMacrosDefined` | src/Executor/main.c:136-231 | And every other macro too: the bin directory, the timeout, and for each of the five programs its name and its path in that directory. |
| `ExecutorSafety.DecisionsAfterStartUp` | src/Executor/main.c:136-283 | From the settings to the decisions: after start-up the three checks allow exactly the configured paths. |
| `ChallengePaths.Sequence.BuildLocalAuthFilePath` | src/Executor/LocalAuth.c:65-92 | The buffer holds directory, prefix, user, sequence number and milliseconds, cut to the buffer; the 32-bit counter goes up by one and wraps. |
| `ChallengePaths.PathsTellApart` | src/Executor/LocalAuth.c:65-92 | Equal names that were not cut come from the same user, sequence number and time, whatever underscores and digits the user names hold. |
| `ChallengePaths.NeverSharedExactlyWhen` | src/Executor/LocalAuth.c:65-92 | For one user no two sequence numbers ever share a name if and only if the buffer has room for an underscore and ten digits after the user. |
| `ChallengePaths.SharedExactlyWhen` | src/Executor/LocalAuth.c:65-92 | Two different users, the shorter name first, ever share a name if and only if the longer one fills the buffer and what fits of it is what fits of the other, or that name and the start of an underscore, a numeral, an underscore and a numeral; or it is the shorter one with an underscore and a sequence number and leaves at most four characters in the buffer. |
| `Decimal.ValueOfNumeral` | src/Executor/LocalAuth.c:90-90 | Reading a printed number gives the number back. |
| `Tokens.RandBytesToHexASCII` | src/Executor/Random.c:141-162 | The array holds the two digits of each byte, the high one first, then the terminator; the rest is untouched. |
| `Tokens.HexRoundTrip` | src/Executor/Random.c:141-162 | A token decodes back to its random bytes. |
| `Executor.Executor.OpenByMode` | src/Executor/Parent.c:185-230 | For every outcome of open and fchmod: success exactly when a descriptor results, which is then the only new one; a missing file is created for writing only; failure leaves no descriptor. |
| `Executor.Executor.HandleOpenFileRequest` | src/Executor/Parent.c:151-254 | The reply and the new state are those of the specification (`ExecutorSafety.OpenGrantedExactly` says when a file is handed over), and the set of open descriptors is unchanged. |
| `Executor.Executor.HandleStartProviderAgentRequest` | src/Executor/Parent.c:264-462 | For every outcome of the user look-up, both pipes and fork the set of open descriptors is unchanged, and the reply and the agent started are those of the specification; an undefined program path is fatal. |
| `Executor.Executor.HandleDaemonizeExecutorRequest` | src/Executor/Parent.c:472-497 | The pipe is written and closed if there is one, and forgotten. |
| `Executor.Executor.HandleRenameFileRequest` | src/Executor/Parent.c:507-550 | Allowed, present and not refused by the system: the contents move; otherwise nothing changes. |
| `Executor.Executor.HandleRemoveFileRequest` | src/Executor/Parent.c:560-601 | Allowed, present and not refused by the system: the file goes; otherwise nothing changes. |
| `Executor.Executor.CreateLocalAuthFile` | src/Executor/LocalAuth.c:116-165 | For every outcome of the system calls: the file holds the whole new token on success, and what is left of it on failure; no descriptor is left open. |
| `Executor.Executor.CheckLocalAuthToken` | src/Executor/LocalAuth.c:178-211 | Zero exactly when the file is there, can be read, holds forty characters and these are the response; nothing changes. |
| `Executor.Executor.HandleChallengeLocalRequest` | src/Executor/Parent.c:767-793 | An unknown user takes no sequence number; otherwise the file of the next number is made and its name returned. |
| `Executor.Executor.HandleAuthenticateLocalRequest` | src/Executor/Parent.c:803-826 | The verdict on the response, and the file is removed whatever the verdict, as the specification says; what that means is `ExecutorChallenges.AnswerRemoves`. |
| `Executor.Executor.Handle` | src/Executor/Parent.c:935-986 | Every request is dispatched to the specification of its own handler. |
| `ExecutorSafety.OnlySanctionedWrites` | src/Executor/Parent.c:151-601 | Over every run, a file that is new or has new contents is one the policy lets be written, one made by a challenge, or one written by another process. |
| `ExecutorSafety.OnlyNamedDeletions` | src/Executor/LocalAuth.c:255-268 | Over every run, a file that goes is one the policy lets be removed or renamed, one a challenge replaces, one named by the second step of local authentication, or one removed by another process. |
| `ExecutorSafety.OnlyAllowedGrants` | src/Executor/Parent.c:247-253 | A descriptor sent to the server is for the path asked for, in a direction the policy allows; a file opened for writing is emptied or made, and nothing else changes. |
| `ExecutorSafety.OpenGrantedExactly` | src/Executor/Parent.c:151-254 | After start-up a file is handed over if and only if path and mode are listed, the descriptor can be had, and the file is there or is made for writing with its mode set; the grant is for reading or writing as asked, and every other answer is -1. |
| `ExecutorSafety.FileRequestsSucceedExactly` | src/Executor/Parent.c:507-601 | After start-up a removal or renaming is answered with 0 if and only if the policy lists the paths, the file is there and the system does it, and with -1 otherwise. |
| `ExecutorSafety.FailureChangesNothing` | src/Executor/Parent.c:151-601 | A file request that is answered with -1 leaves everything as it was, but for an empty file when a new file was made and its mode could not be set. |
| `ExecutorSafety.AgentsAreThere` | src/Executor/Parent.c:293-309 | After start-up no request is fatal: there is a program for every kind of agent. |
| `ExecutorSafety.AgentStartedExactly` | src/Executor/Parent.c:264-462 | After start-up an agent starts exactly for a known bitness and user when both pipes and the fork succeed; it is the program of its bitness in the bin directory, for the module and user of the request, and otherwise nothing changes. |
| `ExecutorSafety.OnlyAgents` | src/Executor/Parent.c:264-462 | Over every run after start-up, every process started is one of the two agent programs of the bin directory. |
| `ExecutorSafety.VerdictIsTold` | src/Executor/Parent.c:129-866 | The verdict of the system on a password, a user or a log level is the answer, a ping and only a ping is answered as one, and neither changes anything. |
| `ExecutorSafety.FileRequestsDone` | src/Executor/Parent.c:507-601 | A successful removal takes away that file, a successful renaming moves the contents; every other file keeps its contents, and nothing but files changes. |
| `ExecutorSafety.WritableExactly` | src/Executor/Policy.c:79-202 | After start-up the paths that can be written or be the target of a renaming are exactly the configured ones. |
| `ExecutorSafety.WrittenFiles` | src/Executor/Parent.c:151-601 | Composed with start-up: only configured paths and names that start with the challenge directory and prefix are ever written. |
| `ExecutorSafety.RunKeepsDescriptors` | src/Executor/Parent.c:151-497 | Over every run no descriptor is gained, none is lost but the start-up pipe, and that one is written once and closed once, exactly if a daemonize request is served while it is open. |
| `ExecutorChallenges.LeakExactly` | src/Executor/LocalAuth.c:116-268 | The guards of the leaks, told from the request and the system calls, are met by exactly the steps that put a whole token under the name without telling a client, or keep it after a success. |
| `ExecutorChallenges.AnswerRemoves` | src/Executor/LocalAuth.c:255-268 | An answer to a challenge, right or wrong, leaves no file of that name if it can be removed, and every other file as it was. |
| `ExecutorChallenges.Balance` | src/Executor/LocalAuth.c:116-268 | The books of one path over every run: successes never outnumber attempts on a whole token, and these plus a whole token still there never exceed challenges made, leaks, and a whole token there before. |
| `ExecutorChallenges.OneTime` | src/Executor/LocalAuth.c:116-268 | Without leaks, attempts on a whole token, right or wrong, never outnumber the challenges made for the path, and successes never outnumber the attempts. |
| `ExecutorChallenges.OneAttempt` | src/Executor/LocalAuth.c:178-268 | One attempt for each challenge: after any answer whose file could be removed, nobody passes by that path more often than challenges make it again, unless there is a leak. |
| `ExecutorChallenges.OneTimeExactlyWhen` | src/Executor/LocalAuth.c:116-268 | That holds over all runs whose leaks are of given kinds if and only if no kind is given: a whole token renamed to the path as the policy allows, one placed by another process, and a failed removal each break it. |
| `ExecutorTokens.SuccessShowsToken` | src/Executor/LocalAuth.c:178-211 | A success on a path the policy protects and no other process writes means that the response is a whole token drawn for it, from which the random bytes can be read back. |
| `ExecutorTokens.ChallengeToldExactly` | src/Executor/LocalAuth.c:116-242 | A challenge is told if and only if the user is known, an old file goes, the new one can be made, all forty characters are written and the owner is changed; then the file holds the new token. A known user takes a sequence number in any case. |
| `ExecutorTokens.FailedChallengeLeaves` | src/Executor/LocalAuth.c:116-165 | A challenge that is not told leaves no file of its name if files can be removed; if not, it leaves the old one or as much of the token as was written. |
| `ExecutorTokens.AcceptedExactly` | src/Executor/LocalAuth.c:178-268 | An answer is accepted if and only if the file can be read and its first forty characters are the answer, both taken as C strings. |
| `ExecutorTokens.AnswerIsAccepted` | src/Executor/LocalAuth.c:178-268 | A client that answers with the token of its challenge is authenticated if the file is still there as it was made and can be read. |
| `ExecutorTokens.MadeOnce` | src/Executor/LocalAuth.c:65-92 | Before the sequence number wraps, a name that was not cut is made at most once. |
| `ExecutorTokens.PassedOnce` | src/Executor/LocalAuth.c:65-268 | Without leaks and before the wrap, such a name can be tried and passed at most once. |
| `LocalAuthentication.ApartExactly` | src/Executor/Policy.c:79-202 | No name that starts like a challenge is a configured path, a backup or a file of a store, if and only if none of three names starts so and neither store can hold such a name. |
| `LocalAuthentication.PolicyDoesNotLeak` | src/Executor/Policy.c:79-361 | After start-up with such settings no request makes the policy put a token where a challenge is. |
| `LocalAuthentication.OneTimeAfterStartUp` | src/Executor/LocalAuth.c:116-268 | From the settings to the clients: unless another process writes the file or a removal of this file fails, a challenge file is tried, rightly or not, no more often than clients were told of it, and at most once if its name was not cut and the number has not wrapped; it authenticates no more clients than that. |
| `LocalAuthentication.SuccessAfterStartUp` | src/Executor/LocalAuth.c:178-211 | Unless another process writes the file, whoever is authenticated after start-up answered with a whole token drawn for it. |
| `LocalAuthentication.ToldPathsAreProtected` | src/Executor/LocalAuth.c:65-165 | The paths that clients are told are such paths. |
| `Frames.FieldRoundTrip` | src/Executor/Messages.h:128-282 | A text field is read back as it was put, cut to the buffer. |
| `Frames.RequestRoundTrip` | src/Pegasus/Common/Executor.cpp:650-1085 | The executor reads each request as the client wrote it, its strings cut to the buffers. |
| `Frames.ReplyRoundTrip` | src/Executor/Messages.h:80-282 | The client reads the magic number, the status, the process and the challenge name the executor wrote. |
| `Transport.Socket.RecvNonBlock` | src/Executor/Socket.c:150-204 | For every schedule the result is that of the specification, and the buffer holds exactly the bytes taken off the stream, in order. |
| `Transport.ReceiveCounts` | src/Executor/Socket.c:150-204 | A count is the number of bytes taken, in order; it falls short only at the end of the stream or when a read would block after some bytes. It is -1 only if the last event is a failed read, or one that would block with nothing taken; the process ends only at a signal; every other event before the last is a time-out or an arrival, and no transfer ends at a time-out. |
| `Transport.Socket.SendNonBlock` | src/Executor/Socket.c:216-257 | For every schedule the result is that of the specification. |
| `Transport.SendsInOrder` | src/Executor/Socket.c:216-257 | What was sent is a stretch of the bytes, in order, and a count says how far it goes. It is -1 only if the last write fails, falls short only if a write would block or takes nothing, and the process ends only at a signal; no transfer ends at a time-out. |
| `Transport.Socket.RecvBlock` | src/Executor/Socket.h:174-198 | For every schedule the result is that of the specification, and the buffer holds exactly the bytes taken, in order. |
| `Transport.BlockingCounts` | src/Executor/Socket.h:174-198 | A blocking transfer never ends by a signal, falls short only at the end of the stream, and is -1 only after a failed read. |
| `Transport.Socket.SendBlock` | src/Executor/Socket.h:200-220 | For every schedule the result is that of the specification. |
| `Transport.BlockingSendsInOrder` | src/Executor/Socket.h:200-220 | What was sent is a stretch of the bytes, in order; a count says how far it goes, and -1 comes only from a failed write. |
| `Schedules.TimeoutsAreHarmless` | src/Executor/Socket.c:150-204 | Two schedules that differ in time-outs only give the same count and take the same bytes. |
| `Schedules.WriteTimeoutsAreHarmless` | src/Executor/Socket.c:216-257 | The same for sending. |
| `Schedules.InterruptionsAreHarmless` | src/Executor/Socket.h:174-198 | Interruptions of a blocking read change neither count nor bytes. |
| `Schedules.WriteInterruptionsAreHarmless` | src/Executor/Socket.h:200-220 | The same for a blocking write. |
| `Schedules.AllArrives` | src/Executor/Socket.c:150-204 | With only time-outs and arrivals to come, and enough arrivals, a transfer gets all it wants or all that is left of the stream. |
| `Schedules.AllIsSent` | src/Executor/Socket.c:216-257 | With only time-outs and progress to come, and enough progress, all bytes are sent. |
| `Parent.Parent` | src/Executor/Parent.c:877-992 | The loop ends as the specified run does: same exit, same state, same bytes taken and sent. |
| `ParentRuns.HandledIsCut` | src/Executor/Parent.c:914-987 | For every stream and schedule the frames handled are the first ones of the only cut of the stream into frames; the loop is left for the end of the input only between frames: then they are all of them, and the stream is their bytes and nothing more. |
| `ParentRuns.CutOfFrames` | src/Executor/Parent.c:914-987 | A stream made of proper frames is cut into just those. |
| `ParentRuns.CutKeepsBytes` | src/Executor/Parent.c:914-987 | The bytes of the cut are the stream, up to a rest that holds no whole frame. |
| `ParentRuns.ClientIsServed` | src/Pegasus/Common/Executor.cpp:650-1085 | Whatever the transfers are split into, the executor handles the requests of the client, in order; at the end of the input, all of them. |
| `ParentRuns.OneReplyEach` | src/Executor/Parent.c:92-117 | Each handled request gets its one reply, whole and in order; only the last reply may be cut short, when the loop ends because it cannot be written, and only a request that is fatal gets none. |
| `ParentRuns.LoopIsRun` | src/Executor/Parent.c:914-987 | The state after the loop and the replies are those of the run of the requests in the frames. |
| `ParentRuns.NoRequestIsFatal` | src/Executor/Parent.c:264-309 | After start-up the loop never ends for lack of an agent program. |
| `ParentRuns.StreamIsHarmless` | src/Executor/Parent.c:877-992 | From bytes to files: no stream makes the executor write anything but configured paths and challenge files, and the descriptors at the end are those at the start, but for the pipe. |
| `ParentService.TimeoutsDoNotMatter` | src/Executor/Parent.c:914-987 | Two runs of the loop whose schedules differ in time-outs only handle the same frames, give the same replies, end in the same way and the same state, and have read and sent the same bytes. |
| `ParentService.EveryFrameIsServed` | src/Executor/Parent.c:914-987 | After start-up, with only time-outs and arrivals to come, enough of them, and room for the replies, every whole frame of the stream is handled and replied to, and the loop ends for the end of the input if and only if the stream is made of whole frames. |
| `ParentService.EveryRequestIsServed` | src/Pegasus/Common/Executor.cpp:650-1085 | So a client whose transfers go through has every request handled and answered, and then the loop ends for the end of the input. |
| `Paths.DirName` | src/Executor/Path.c:59-101 | In place, for every path cut to the buffer: what the dirname utility gives. |
| `Paths.DirectoryIsDirName` | src/Executor/Path.c:59-101 | The erasing loops of the program agree with the steps of the utility on every string. |
| `Paths.DirNameEnds` | src/Executor/Path.c:59-101 | The result ends in a slash only if it is the root, and is absolute exactly when the path is. |
| `Paths.DirNameShortens` | src/Executor/Path.c:59-101 | One step up shortens the path or arrives at the root or the current directory. |
| `Paths.ClimbArrives` | src/Executor/Path.c:59-101 | Repeated application arrives within one step more than the path has characters: at the root for an absolute path, at the current directory for any other. |
| `Argv.BuildArgv` | src/Executor/Child.c:65-84 | The new vector is the program, the option, the socket and the original arguments after the first, ended by a null pointer. |
| `Argv.ExtractExecutorSockOpt` | src/Server/cimserver.cpp:368-435 | In place: the first occurrence of the option and its number are taken out and the null pointer moves with the rest; a missing option, a missing argument and a bad number are told apart and change nothing. |
| `Argv.SocketRoundTrip` | src/Server/cimserver.cpp:395-414 | A printed 31-bit number is read back by strtoul and accepted. |
| `Argv.SocketExactly` | src/Server/cimserver.cpp:395-414 | The texts taken as a socket are the empty one, which is 0, and white space, a sign or none, and digits, with nothing after them, whose number fits 31 bits; a number with a minus sign is taken off the word size first. |
| `Argv.MissingExactly` | src/Server/cimserver.cpp:368-435 | The option is reported missing if and only if it is none of the arguments after the first, and then the arguments stay. |
| `Argv.ExtractExactly` | src/Server/cimserver.cpp:368-435 | Wherever the option first stands: without an argument after it, or with one that is no socket, that is reported and the arguments stay; otherwise the socket is taken and exactly the two are gone. |
| `Argv.CommandRoundTrip` | src/Server/cimserver.cpp:368-435 | For every argument vector and every 31-bit socket, extraction applied to what the executor builds returns the socket and the arguments as they were. |
| `StartUp.StepKeepsInv` | src/Server/cimserver.cpp:986-1029 | Every step of every process and of every shutdown client that is no fault keeps the invariant: one process decides under the lock, claims exclude each other, and the PID file names the server. |
| `StartUp.SingleServer` | src/Server/cimserver.cpp:986-1029 | In every interleaving of the single steps of starters, crashes, stops and forced kills without faults at most one live process serves, and the PID file names it. |
| `StartUp.RefusedLeavesFile` | src/Server/cimserver.cpp:1007-1023 | Over every run, faults or not, a refused starter stays refused while it lives, and all it does is to unlock and to end: it touches neither file. |
| `StartUp.ReuseIsTheCause` | src/Server/cimserver.cpp:936-944 | A starter finds a server with the PID of its parent only if a process was given that PID before the starter read the PID file. |
| `StartUp.StopLeavesNoFile` | src/Service/ServerRunStatus.cpp:157-165 | After a server has stopped there is no PID file, whatever else happens and goes wrong, until a starter creates one. |
| `StartUp.CrashLeavesFile` | src/Service/ServerRunStatus.cpp:157-180 | A server that dies leaves the PID file naming it, until a starter that has passed the test or a forced kill removes it. |
| `StartUpProgress.EveryStarterFinishes` | src/Server/cimserver.cpp:986-1029 | From every state that any run, with any faults, can reach, every launched process can come to serve or to be refused, holding no lock, when only it and those that hold the lock move on and none of them dies. |
| `StartUpProgress.LockComesFree` | src/Server/cimserver.cpp:996-1029 | Holders of a lock can let it go one after the other, and nobody else needs to move. |
| `StartUpProgress.TestDecides` | src/Server/cimserver.cpp:1007-1023 | Under the lock a starter is refused if and only if the PID file names a live process of the program other than itself and its parent, and the test changes nothing else. |
| `StartUpProgress.StarterEnds` | src/Server/cimserver.cpp:1007-1029 | A starter under the lock can come to serve with its name in the PID file if and only if that file names no other live process of the program; otherwise it leaves and the file is as it was. |
| `StartUpProgress.ServerStops` | src/Server/cimserver.cpp:1349-1352 | A server can always stop, on its own, and leaves neither the lock file nor the PID file. |
| `StartUpFaults.FaultExactlyWhen` | src/Server/cimserver.cpp:986-1029 | In every state that a run without faults can reach, a step is a fault if and only if two servers can come about after it without any other fault. |
| `StartUpFaults.FaultFreeExactly` | src/Server/cimserver.cpp:986-1029 | A run has no fault if and only if at no point of it two servers are there or can come about without a further fault: no harmless step is counted as a fault. |
| `StartUpFaults.SingleServerExactlyWhen` | src/Server/cimserver.cpp:986-1029 | At most one server in all runs whose faults are of given kinds if and only if no kind is given: every kind can be the first fault of a run. |
| `StartUpFaults.PidReuseBreaks` | src/Service/ServerRunStatus.cpp:167-180 | A server that has got the PID of a starter's dead parent is taken for that parent, and the starter serves beside it. |
| `StartUpFaults.KilledPidReuseBreaks` | src/Service/ServerRunStatus.cpp:194-220 | A server that gets the PID of the one just killed loses its PID file to the killer, and a second one starts. |
| `StartUpFaults.LockLostBreaks` | src/Pegasus/Common/SystemPOSIX.cpp:768-806 | A starter that goes on although it could not lock ends up as a second server. |
| `StartUpFaults.WriteLostBreaks` | src/Service/PidFile.cpp:72-86 | A server whose PID file could not be created is not found by the next starter. |
| `StartUpFaults.EarlyUnlinkBreaks` | src/Server/cimserver.cpp:1349-1352 | Removing the lock file while a starter uses it lets two starters lock different files. |
| `StartUpFaults.LateKillBreaks` | src/Service/ServerRunStatus.cpp:194-220 | A forced kill that found no PID removes the PID file of a server started since. |
| `StartUpFaults.StartBeforeRemovalBreaks` | src/Service/ServerRunStatus.cpp:194-220 | A server that starts after the kill and before the removal of the PID file loses its file, and a second one starts. |
| `ServerStatus.ServerRunStatus.IsServerRunning` | src/Service/ServerRunStatus.cpp:167-180 | The test is the two steps of the protocol that read the PID file and decide. |
| `ServerStatus.ServerRunStatus.SetServerRunning` | src/Service/ServerRunStatus.cpp:182-187 | The call is the steps that remove the old PID file, create the new one and write the PID into it; afterwards the file holds the PID, or is not there if it could not be created. |
| `ServerStatus.ServerRunStatus.SetServerNotRunning` | src/Service/ServerRunStatus.cpp:157-165 | Only the process that declared itself the server removes the PID file, after it has stopped serving or, without the lock, while it still does; then there is no PID file. |
| `ServerStatus.ServerRunStatus.Forked` | src/Server/cimserver.cpp:936-944 | A process forked after its parent has named itself has that parent, as the fork step says. |
| `ServerStatus.ServerRunStatus.SetParentPid` | src/Server/cimserver.cpp:936-937 | A process that names itself before it forks is a launched one. |
| `ServerStatus.ServerRunStatus.KillReads` | src/Service/ServerRunStatus.cpp:194-197 | The first step of a forced kill: the PID in the file. |
| `ServerStatus.ServerRunStatus.KillTests` | src/Service/ServerRunStatus.cpp:199-206 | The second step: the PID read is tested against the processes alive by then. |
| `ServerStatus.ServerRunStatus.KillRemoves` | src/Service/ServerRunStatus.cpp:204-218 | The last step: the PID file goes, whatever it holds by then. |
| `ServerStatus.ServerRunStatus.Kill` | src/Service/ServerRunStatus.cpp:194-220 | A forced kill is the steps of the shutdown client, here with nothing in between; the victim is the process the PID file names, if it lives. |
| `ServerStatus.PidFileCell.GetPid` | src/Service/PidFile.cpp:48-70 | The PID in the file, or zero. |
| `ServerStatus.PidFileCell.SetPid` | src/Service/PidFile.cpp:72-86 | The old file is removed first; if the new one cannot be created there is none. |
| `JsonText.QuoteIsBody` | www/js/json2.js:211-225 | Copying a string that needs no escapes and escaping character by character give the same text. |
| `JsonText.Hex4` | www/js/json2.js:219-224 | Padding with four zeros and keeping the last four characters gives the four hexadecimal digits of any code unit. |
| `JsonPrinter.Stringifier.Str` | www/js/json2.js:228-354 | Recursive printing with the gap kept in a field: the text is that of the specification, and every call leaves the gap as it found it. |
| `JsonPrinter.Stringifier.StrArray` | www/js/json2.js:296-314 | The loop over the elements prints all of them, in order, and restores the gap. |
| `JsonPrinter.Stringifier.StrObject` | www/js/json2.js:329-352 | The loop over the members prints all of them, in order, and restores the gap. |
| `JsonPrinter.Stringifier.Stringify` | www/js/json2.js:359-399 | The gap and the indentation are set from the space argument (`JsonLayout.IndentExactly` says to what), and the value is printed from there. |
| `JsonPrinter.PrintIsTokens` | www/js/json2.js:228-354 | The printed text is a sequence of tokens, with white space only between them. |
| `JsonLayout.PrintIsLaid` | www/js/json2.js:296-352 | The printed text is the tokens of the value with white space exactly where the reference for the layout puts it: with an indentation one space after each colon, a new line and as many indentations as brackets are open after each comma and each opening bracket that is not closed at once, and before the closing one; nothing else, and nothing at all without an indentation. |
| `JsonLayout.LayoutExactly` | www/js/json2.js:228-399 | A text printed with white space for indentation is its own tokens with white space exactly there. |
| `JsonLayout.IndentExactly` | www/js/json2.js:371-383 | A numeric space argument means that many spaces, none if it is not positive; a text means itself; without it there is no indentation. |
| `JsonQuoting.QuoteExactly` | www/js/json2.js:196-225 | A quoted string is its characters between quotation marks, each as a table of ranges and letters says: a letter after a backslash, the four lower-case digits of its code, or the character itself. |
| `JsonQuoting.PrintedIsShown` | www/js/json2.js:196-225 | Whatever a value holds, the printed text has no control or other hidden character but the line feeds and the indentation. |
| `JsonParser.ReadString` | www/js/json2.js:211-225 | Unquoting as in section 7 of RFC 8259 undoes quote, over all UTF-16 code units. |
| `JsonParser.LexRender` | www/js/json2.js:228-354 | A lexer for sections 2 to 7 of RFC 8259 finds the tokens of any text made of proper, separated tokens. |
| `JsonRoundTrip.RoundTrip` | www/js/json2.js:211-399 | For every value and every indentation of white space, a parser for RFC 8259 applied to the printed text gives the value, with null for numbers that are not finite. |
| `JsonRoundTrip.RoundTripExactly` | www/js/json2.js:260-264 | The value comes back unchanged if and only if every number in it is finite. |
| `JsonIndent.ParsesExactly` | www/js/json2.js:228-354 | A text is read as a value if and only if its tokens are the ones printed for that value. |
| `JsonIndent.SafeIndentExactly` | www/js/json2.js:371-383 | Every finite value comes back unchanged if and only if the indentation is white space. |
| `JsonIndent.IndentIsWhiteSpace` | www/js/json2.js:228-354 | Removing the white space outside string literals from an indented text gives the compact text. |
| `JsonFilter.FollowValue` | www/js/json2.js:461-464 | Every opening bracket of a printed value is reached by a chain from the start, a colon or a comma. |
| `JsonFilter.ChainedIsEmptied` | www/js/json2.js:464-464 | The third replacement deletes every opening bracket of a text in which each is so reached. |
| `JsonFilter.LexIsSkeleton` | www/js/json2.js:462-463 | The first two replacements shrink the tokens of any JSON text to marks: strings, words and numbers become closing brackets, punctuation and white space stay. |
| `JsonFilter.ValidPasses` | www/js/json2.js:461-464 | The three replacements and the final test accept every JSON text, however it is written. |
| `JsonPatterns.MishandledExactly` | www/js/json2.js:195-195 | The characters of stage one are those of the ranges of its regular expression. |
| `JsonPatterns.StageOneClears` | www/js/json2.js:439-446 | Stage one leaves none of them, a text without them as it is, and a second time changes nothing. |
| `JsonPatterns.EscapeExactly` | www/js/json2.js:462-462 | What the first replacement takes for an escape sequence: a backslash and one of eight characters, or a backslash, a u and four hexadecimal digits; both directions. |
| `JsonPatterns.SimpleExactly` | www/js/json2.js:463-463 | What the second replacement takes at a position is a string without backslashes and ends of lines, one of the three words, or a number whose fraction may lack digits; and no longer such piece starts there. |
| `JsonPatterns.OpensExactly` | www/js/json2.js:464-464 | The brackets deleted by the third replacement are the longest run of opening brackets with white space between them. |
| `JsonPatterns.SpaceExactly` | www/js/json2.js:461-464 | White space is that of section 15.10.2.12 of ECMA-262, by its ranges. |
| `JsonFilterExactly.PassesExactly` | www/js/json2.js:461-464 | A text passes if and only if it is a row of string literals, words, numbers, punctuation and white space, in which every opening bracket comes, white space apart, at the start or right after a colon, a comma or another such bracket. |
| `JsonFilterRejects.WildIsQuoted` | www/js/json2.js:448-464 | In every text that passes, whatever strings it holds: a character other than punctuation, white space and the characters of numbers and of the three words is inside a string literal, and every string literal is closed. |
| `JsonFilterRejects.ActiveTextRejected` | www/js/json2.js:448-464 | In particular a text without strings that holds a parenthesis, a semicolon, an equals sign or the w of new is rejected, as the comment wants. |
| `JsonStageOne.StageOneKeepsMeaning` | www/js/json2.js:439-446 | Every text that is read as a value is read as the same value after stage one. |
| `JsonStageOneExactly.StageOneExactly` | www/js/json2.js:439-446 | A text that is readable after stage one had that meaning before if and only if it holds no null and no backslash outside an escape sequence; otherwise it had none. |
| `JsonStageOneExactly.NullBecomesReadable` | www/js/json2.js:439-446 | A null character in a string is not allowed, but the escape sequence stage one makes of it is. |
| `JsonStageOneExactly.BackslashBecomesReadable` | www/js/json2.js:439-446 | A backslash before any mishandled character is no escape sequence, but stage one makes an escaped backslash of it. |
| `JsonStageOne.EveryTextPasses` | www/js/json2.js:439-464 | Stages one and two together let every JSON text through and keep its meaning. |
| `JsonStageOne.PrintedPasses` | www/js/json2.js:359-464 | Everything stringify prints is left unchanged by stage one and accepted by the filter. |
| `Fold.FoldString` | src/Clients/cimcli/CIMCLICommon.cpp:511-580 | The character loop puts out the lines of the layout, without a last line as wide as the indentation. |
| `Fold.LayoutConserves` | src/Clients/cimcli/CIMCLICommon.cpp:511-580 | The lines of the layout unfold to the input: only breaks and indentation are put in. |
| `Fold.TextLostExactly` | src/Clients/cimcli/CIMCLICommon.cpp:574-578 | The final test drops text if and only if the input is not empty, holds no new line and is as long as the indentation, which is less than the fold. |
| `Fold.FoldConservesExactly` | src/Clients/cimcli/CIMCLICommon.cpp:511-580 | The output holds all of the text if and only if the input is not such a one. |
| `Fold.LayoutWithin` | src/Clients/cimcli/CIMCLICommon.cpp:511-580 | With w the longest run without spaces and new lines, every line of the output is at most as long as the larger of foldPos - 1 and startPos + w + 1. |
| `Fold.LayoutBreaksWhereNeeded` | src/Clients/cimcli/CIMCLICommon.cpp:520-572 | A line is broken only where the next word would make it as wide as the fold or wider. |

## Left out

- System calls themselves: open, pipe, fork, read, write, select, unlink, rename, fchmod, fchown and sendmsg are outcomes that the environment chooses; the child branch after fork is another process and is not followed.
- File modes, owners and the umask: files are names and contents. The permissions chosen by the policy are part of the decision that is proved, not of the files.
- Symbolic links, `..` and directories: a path is a literal name.
- Reads beyond an unterminated field of a request: a field ends with its buffer.
- Modes of an open request that do not fit one character, and the padding, byte order (least significant first) and sizes of the frame structures of other machines.
- PAM and password files: the verdict on a password, on a user name and on a log level is an outcome of the environment.
- DefineConfigPathMacro and GetHomedPath: the path macros are given values, since the relative branch passes one buffer as source and destination.
- GetConfigParamFromFile, log output, option parsing, ExecShutdown and the downgrading of privileges in Child.
- RedirectTerminalIO: the standard streams keep their numbers and are not followed.
- SendDescriptorArray: whether it succeeds is an outcome that the source does not check either.
- Memory exhaustion, except in DefineMacro where the source handles it.
- StartUp: the protocol is modelled on values, since its steps are interleaved; the calls made of these steps are classes in `ServerStatus`.
- ServerStatus: a shutdown client is no process of the server program; the Windows, OpenVMS and z/OS branches are not modelled.
- JsonPrinter.Stringifier.Str: values are null, booleans, numbers, strings, arrays and objects; undefined, functions, toJSON, replacers and Date are not modelled, and an object is the sequence of its own members.
- JsonText.NumberText: a number is its decimal text; the conversion between that text and a double is not modelled.
- JsonStageOne.EveryTextPasses: eval and revivers are not modelled; the reference parser stands for the reading of the text.
- Fold.FoldString: positions and lengths do not wrap at 32 bits.
- Argv.BuildArgv: the executor is always given at least its own name as an argument.
- Cimop, Cimpls, the test clients, cimauth, the DOM scripts, pull operations and the binary protocol.
