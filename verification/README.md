# A verified model of the prefix server's message core

`server.py` runs a chat-driven server: a browser session shows a conversation,
and every 30 seconds the server reads the newest message on the page. A
message that starts with one of eight prefixes (`L:>P`, `L:>L`, `!PAMIETNIK!`,
`!OBRAZEK!`, `L:>CMD`, `%LOAD%`, `L:>WIA`, `L:>AKC`) is handed to that prefix's
handler. Five handlers store the content as a text note under `memory/`. One
appends to the day's diary. `L:>CMD` runs a shell command, which may read and
write any file. `%LOAD%` reads a file back when its resolved path, as a
string, starts with the resolved `memory` path, or when the name as given
starts with `logs/server_log`; the exact rule and what it lets through are
below. The handler's reply line (`REQ:>STATUS ...` or `ERR:>LOG ...`) is sent
back as it is when it has at most 3896 code points (`MAX_CONTENT_LENGTH`).
A longer reply is cut into slices of at most 3896 code points, and each slice
goes out behind a `[CZĘŚĆ i/n]` header line, so such a part is longer than the
slice. A reply line that shows up on the page is ignored, so the server does
not answer its own reply lines. The parts of a long reply are not ignored:
their header hides the sentinel, so the newest part is answered once with the
"unrecognised" error line, which is then ignored in turn
(`PollLoop.OwnReplyPartAnswered`).

The model has eight modules, one file each:

- `wrappers.dfy` (`Wrappers`): the `Option` type.
- `strings.dfy` (`Strings`): Python's `str.strip`, `startswith`, `str(int)`,
  `split` and `join`, with the laws the rest of the model needs (strip is
  idempotent, split and join are inverse, `str(int)` parses back).
- `paths.dfy` (`Paths`): POSIX `os.path.join`, `normpath` and `abspath` on
  strings, and their behaviour on paths made of plain components.
- `protocol.dfy` (`Protocol`): the prefix vocabulary, the reply sentinels, the
  storage directories and the length limits.
- `handlers.dfy` (`Handlers`): the eight handlers as functions from content,
  environment and files to an outcome. The environment holds the working
  directory, the clock, the shell and the files that cannot be opened. The
  files are a map from normalised absolute path to text.
- `router.dfy` (`Router`): `process_incoming_message`. It is a specification
  function `Process` and an imperative method `ProcessIncomingMessage` whose
  loop over the prefix list is proved equal to it.
- `chunker.dfy` (`Chunker`): `split_long_text`. It is a loop method
  `SplitLongText` proved equal to the function `Chunks`. `Reassemble` is a
  reader of the `[CZĘŚĆ i/n]` headers that inverts `Chunks`; it exists only to
  state that no text is lost or reordered.
- `pollloop.dfy` (`PollLoop`): one iteration of `cycle_loop`. `Step` is the
  specification on a `LoopState` value. The class `Server` holds the loop's
  variables and updates them in place, and its `Cycle` method is proved equal
  to `Step`.

The model follows the code where the code and its comments disagree:

- The loop's docstring says the page is refreshed every 5 cycles. The code
  sets `refresh_cycle = 10` (server.py:446), so the model uses 10.
- A failed, timed-out or crashed `L:>CMD` is still answered with a
  `REQ:>STATUS` line that carries the error text (server.py:273-279). It is
  not answered with an `ERR:>LOG` line.
- The `%LOAD%` access check compares strings (server.py:288). The resolved path
  only has to start with the resolved `memory` path. So `memory_backup/x` is
  let through as well as `memory/x`, and `LoadAllowedPlain` states exactly
  this. A name that merely starts with `logs/server_log` is let through
  whatever it resolves to, `logs/server_log/../../etc/passwd` included.

## Model

| member | source | states |
|---|---|---|
| Strings.Strip | server.py:327 | Python's `strip()`; the result is never longer than the input, and `StripStripped`, `StripEmpty`, `StripSurrounded` and `StripIdempotent` state what it removes |
| Paths.JoinPath | server.py:286 | POSIX `os.path.join`; `JoinPathPlain` and `JoinPathAbsolute` state its result |
| Paths.NormPath | server.py:285-286 | POSIX `os.path.normpath`; `NormPathSingleSlash`, `NormPathOfRender`, `NormPathOfDoubleSlash` and `NormPathIdempotent` state its result |
| Paths.AbsPath | server.py:285-286 | `os.path.abspath` with the working directory as input; `JoinPathAbsolute` relates it to `Resolve` |
| Paths.Resolve | server.py:286 | the path `process_LOAD` opens for a name; `ResolveRelative`, `ResolvePlain`, `ResolveMemory` and `ResolveClimb` state what it resolves to |
| Handlers.CreateNote | server.py:232-320 | the five create-mode handlers; `CreateNoteEffect` and `HandleStores` state what they write and when they raise |
| Handlers.AppendDiary | server.py:248-257 | `process_pamietnik`; `DiaryEffect` and `HandleStores` state what it appends and when it raises |
| Handlers.CmdReply | server.py:267-279 | the reply of `process_CMD`; `CmdReplySameResult`, `CmdFailureReplyInjective` and `CmdErrorRepliesDistinct` state what it reports |
| Handlers.LoadAllowed | server.py:288 | the access rule of `%LOAD%`; `LoadDeniedIff`, `LoadAllowedPlain` and `LoadTraversalDenied` state what it lets through |
| Handlers.LoadReply | server.py:281-283 | `process_LOAD` on its content, stripped; `LoadEffect` states its effect |
| Handlers.LoadNamed | server.py:284-303 | `process_LOAD` on a stripped name; `LoadDeniedIff`, `LoadReadsWholeText`, `LoadMissing` and `LoadNamedIsReplyLine` state its answers |
| Handlers.Handle | server.py:340-347 | the dispatch to the eight handlers; `HandleEffect` and `HandleStores` state what each does |
| Router.RouteOf | server.py:327-355 | where `process_incoming_message` sends a message; `RouteOfMatching`, `RouteWithoutPrefix`, `RouteOfEmpty`, `RouteOfComposed` and `RouteOfReplyLine` state it |
| Router.Process | server.py:322-357 | the outcome of `process_incoming_message`; `ProcessMatching`, `ProcessWithoutPrefix`, `ProcessEmptyContent`, `NoFeedbackLoop` and `ProcessIncomingMessage` state it |
| Chunker.Chunks | server.py:360-376 | what `split_long_text` returns; `ChunkCount`, `ChunkAt`, `ChunkSizes`, `ReassembleChunks` and `SplitLongText` state it |
| PollLoop.Remember | server.py:478-480 | the history update; `RememberFifo` states it |
| PollLoop.Transmit | server.py:469-475 | the messages that carry a reply; `NewMessageHandled` states that they read back as the reply |
| PollLoop.Exchange | server.py:454-480 | the guarded body of the loop; `ExchangeNew`, `StepOfNew` and `DuplicateIgnored` state it |
| PollLoop.Refresh | server.py:497-505 | the scheduled refresh; `RefreshClears` states it |
| PollLoop.Step | server.py:449-507 | one pass of the loop; `StepCounts`, `HistoryBounded`, `StepKeepsSent` and `Server.Cycle` state it |
| PollLoop.Run | server.py:449-450 | several passes of the loop; `RunInvariant` states what they keep |
| Protocol.AllowedPrefixesComplete | server.py:32 | every prefix of the vocabulary occurs in the scanned list, exactly once |
| Protocol.LiteralsPrefixFree | server.py:32 | no prefix literal starts with another one, so the order of the list never decides a match |
| Protocol.PrefixesUnambiguous | server.py:32 | a message starts with at most one prefix literal |
| Protocol.PrefixIsNoSentinel | server.py:351-353 | a message carrying a prefix never starts with `REQ:>STATUS` or `ERR:>LOG` |
| Strings.TrimStart | server.py:327 | the result is a suffix of the input that does not begin with whitespace |
| Strings.TrimEnd | server.py:327 | the result is a prefix of the input that does not end with whitespace |
| Strings.TrimStartDrops | server.py:327 | what `lstrip` removes is all whitespace |
| Strings.TrimEndDrops | server.py:327 | what `rstrip` removes is all whitespace |
| Strings.StripStripped | server.py:327 | the stripped message has no whitespace at either end |
| Strings.StripEmpty | server.py:335-336 | a stripped content is empty exactly when the content was all whitespace |
| Strings.StripSurrounded | server.py:327 | stripping removes exactly the whitespace padding around a stripped text |
| Strings.StripIdempotent | server.py:283 | stripping twice equals stripping once, so `process_LOAD` stripping the already stripped content changes nothing |
| Strings.NatToString | server.py:274 | a decimal numeral is a non-empty digit string without a leading zero |
| Strings.DigitsValueOfNatToString | server.py:274 | the decimal numeral of `n` reads back as `n` |
| Strings.NatToStringInjective | server.py:274 | different numbers print differently |
| Strings.IntToString | server.py:274 | the printed exit code contains no `:` |
| Strings.IntToStringRoundTrip | server.py:274 | the printed exit code, sign included, parses back to the code |
| Strings.SplitOnFieldsClean | server.py:285-286 | no field of a split contains the separator |
| Strings.JoinWithSplitOn | server.py:285-286 | joining the fields of a split gives back the string |
| Strings.SplitOnJoinWith | server.py:285-286 | splitting a join of separator-free fields gives back the fields |
| Strings.SplitOnField | server.py:285-286 | splitting at the first separator yields the first field and the split of the rest |
| Strings.JoinWithAppend | server.py:285-286 | joining two non-empty lists of fields puts one separator between their joins |
| Paths.JoinPathPlain | server.py:286 | `os.path.join` of a relative name onto a directory inserts a single `/` |
| Paths.JoinPathAbsolute | server.py:285-286 | joining a relative name onto the absolute working directory is absolute, and `abspath` of it is the resolved path |
| Paths.NormCompsAppend | server.py:285-286 | normalising components in two runs equals normalising them in one |
| Paths.NormCompsOfPlain | server.py:285-286 | plain components (no `.`, `..`, empty or `/`) pass through normalisation unchanged |
| Paths.NormCompsPlain | server.py:285-286 | normalisation keeps a path made of plain components plain |
| Paths.ResolveRelative | server.py:286 | resolving a relative name against a plain working directory applies normalisation to its components |
| Paths.SplitJoinedName | server.py:286 | the joined path splits into root, working-directory components and the name's components |
| Paths.NormPathSingleSlash | server.py:285-286 | `normpath` of a path with one leading slash renders the normalised components |
| Paths.NormPathOfRender | server.py:285-286 | a rendered plain path is already normal |
| Paths.NormPathOfDoubleSlash | server.py:285-286 | POSIX keeps exactly two leading slashes, and the rest of a plain path stays as it is |
| Paths.NormPathIdempotent | server.py:285-286 | normalising an absolute path twice equals normalising it once |
| Paths.RenderInjective | server.py:285-286 | different plain paths render to different strings |
| Paths.RenderPrefix | server.py:288 | a resolved path starts with the resolved `cwd/base` string exactly when its relative name starts with `base` |
| Paths.RenderAppend | server.py:285-286 | rendering an extended path appends `/` and the joined names to the rendered parent |
| Handlers.StatusLine | server.py:238 | a status line begins with the status lead, and the text after the lead is recovered exactly |
| Handlers.ErrorLine | server.py:290 | an error line begins with the error lead, and the text after the lead is recovered exactly |
| Handlers.HandleEffect | server.py:232-320 | every handler answers with a status or error line and raises exactly when its sink cannot be opened; `%LOAD%` changes no file, the storing handlers only their own sink, and `L:>CMD` whatever its command changes |
| Handlers.CommandEffect | server.py:267-279 | `process_CMD` never raises and answers with a `REQ:>STATUS` line even when the command fails; the files are the ones the command left |
| Handlers.LoadEffect | server.py:281-303 | `process_LOAD` answers with a reply line and leaves every file as it was |
| Handlers.DiaryEffect | server.py:248-257 | the diary handler changes only the day's diary file and raises exactly when it cannot be opened |
| Handlers.CreateNoteEffect | server.py:232-320 | each create-mode handler changes only its own timestamped file and raises exactly when it cannot be opened |
| Handlers.HandleStores | server.py:232-320 | the text stored is the content with a `-` or `=` rule, as each handler writes; the diary keeps its earlier text and gains the timed entry |
| Handlers.DirectoryUnderMemory | server.py:35-40 | every storage directory is a plain sub-directory of `memory` |
| Handlers.SubDirectoryInjective | server.py:35-40 | different handlers store under different sub-directories |
| Handlers.SinkNameComponents | server.py:234-235 | the name a handler opens is its directory and the clock-derived file name, joined by `/` |
| Handlers.SinkComponentsPlain | server.py:234-235 | with a plain clock reading, every component of a sink name is plain |
| Handlers.SinkPathUnderCwd | server.py:235-236 | the file a handler opens is the working directory extended by its sink's components, and `%LOAD%` resolves the same name to the same path |
| Handlers.SinksDistinct | server.py:35-40 | at the same moment, two different handlers write to two different files |
| Handlers.RenderDiffers | server.py:235 | different plain component lists give different file paths |
| Handlers.CmdFailureReplyInjective | server.py:273-279 | the reply to a non-zero exit determines both the exit code and the output |
| Handlers.FailureTextInjective | server.py:274 | the failure text determines the exit code and the output |
| Handlers.CmdReplySameResult | server.py:279 | two command replies are equal exactly when the reported results are equal |
| Handlers.CmdErrorRepliesDistinct | server.py:273-278 | a timeout, a non-zero exit and a crash are always reported differently |
| Handlers.UniversalNewlines | server.py:294 | a file read in text mode contains no `\r` and has no more code points than the decoded text stored in the file |
| Handlers.UniversalNewlinesKeeps | server.py:294 | a file without `\r` reads back unchanged |
| Handlers.LoadNamedIsReplyLine | server.py:288-303 | every `%LOAD%` answer is a status or an error line |
| Handlers.LoadDeniedIff | server.py:288-290 | `%LOAD%` answers "access denied" exactly when the access check fails |
| Handlers.LoadReadsWholeText | server.py:292-298 | an allowed, readable file is returned whole when it fits the limit and refused as too long otherwise; the 2×limit read never truncates a file that is returned |
| Handlers.LoadMissing | server.py:292-303 | an allowed name that resolves to no file is answered "does not exist" |
| Handlers.LoadAllowedPlain | server.py:285-288 | for a plain relative name, the access check is a string test: the name starts with `memory` or with `logs/server_log` |
| Handlers.ResolveMemory | server.py:285 | the base path is the working directory extended by `memory` |
| Handlers.ResolvePlain | server.py:286 | a plain relative name resolves to the working directory extended by its components |
| Handlers.LoadTraversalDenied | server.py:284-290 | `memory/../x` is refused unless `x` itself starts with `memory`: climbing out of `memory` is caught |
| Handlers.ResolveClimb | server.py:286 | `memory/../names` resolves to the same path as `names` |
| Handlers.ClimbSplit | server.py:286 | `memory/../names` splits into `memory`, `..` and the names |
| Handlers.ClimbBack | server.py:286 | normalising `memory` then `..` returns to the working directory |
| Handlers.ErrorLinesDiffer | server.py:290-303 | error lines whose texts begin differently differ |
| Handlers.StatusIsNoError | server.py:238 | no status line is an error line |
| Router.FirstMatch | server.py:333-334 | a found position holds a prefix that the message starts with |
| Router.FirstMatchFinds | server.py:333-334 | a message starting with a listed prefix is matched to that prefix |
| Router.FirstMatchNone | server.py:333-334 | no match is found when no listed prefix starts the message |
| Router.NoneMatchesExtend | server.py:333-334 | one more failed `startswith` extends the run of prefixes that did not match |
| Router.NoPrefixMatches | server.py:333-334 | a message that matched nothing in the list starts with no prefix at all |
| Router.ScanPrefixes | server.py:333-334 | the loop over the prefix list returns a prefix the message starts with, or none exactly when no prefix matches |
| Router.ProcessIncomingMessage | server.py:322-357 | the imperative router returns the outcome of the specification `Process` |
| Router.RouteOfMatching | server.py:333-349 | a message with a prefix goes to that prefix's handler with the stripped rest, or to the empty-content error when the rest is empty and the prefix is not `%LOAD%` |
| Router.ProcessMatching | server.py:333-349 | the outcome for a prefixed message is that handler's outcome, or the empty-content error with the files unchanged |
| Router.RouteWithoutPrefix | server.py:350-355 | an unprefixed message starting with a sentinel is the server's own reply; any other is unrecognised |
| Router.ProcessWithoutPrefix | server.py:350-357 | an unprefixed message gets no answer when it starts with a sentinel and the "unrecognised" error otherwise, with the files unchanged |
| Router.ProcessEmptyContent | server.py:335-338 | a prefix followed only by whitespace gets the empty-content error for that prefix, except `%LOAD%` |
| Router.RouteOfEmpty | server.py:335-338 | a prefix followed only by whitespace is routed to the empty-content error |
| Router.LiteralStripped | server.py:32 | every prefix literal is non-empty and has no surrounding whitespace |
| Router.RouteOfComposed | server.py:327-335 | padding, prefix, gap and content, in that order, route to that prefix with exactly that content |
| Router.StripPadded | server.py:327 | stripping a padded message removes only the outer padding |
| Router.StripAfterLead | server.py:335 | the content after a literal, stripped, is exactly the text that followed the gap |
| Router.StripKeepsLead | server.py:353 | a message starting with a lead that has no surrounding whitespace still starts with it after stripping |
| Router.ReplyLineKeepsSentinel | server.py:353 | a reply line, stripped, still starts with a sentinel |
| Router.ProcessRepliesAreReplyLines | server.py:322-357 | every reply of the router is a status or an error line |
| Router.AnswerRepliesAreReplyLines | server.py:331-357 | every route is answered with a status or error line, or not at all |
| Router.RouteOfReplyLine | server.py:350-355 | a reply line of the server is routed as the server's own reply |
| Router.OwnReplyIgnored | server.py:350-355 | a reply line of the server is answered with nothing and changes no file |
| Router.NoFeedbackLoop | server.py:322-357 | whatever the server answers, routing that answer produces no reply and changes no file |
| Chunker.CeilDiv | server.py:368 | the number of parts is the exact ceiling: enough parts to hold the text, none of them empty, and at least two for a text over the limit |
| Chunker.SplitLongText | server.py:360-376 | the loop builds exactly the part list `Chunks` |
| Chunker.ChunkCount | server.py:365-368 | a text that fits is one unchanged part, exactly; a longer text gets at least two parts and the fewest parts of the limit's size that hold it |
| Chunker.ChunkAt | server.py:370-375 | part `i` is the header `[CZĘŚĆ i+1/n]` followed by the `i`-th slice of the text |
| Chunker.ChunkSizes | server.py:371-373 | every slice is non-empty and no longer than the limit, every slice but the last is exactly the limit, and slice `i` starts at `i` times the limit |
| Chunker.DigitRun | server.py:374 | the run of digits read is within the text and stops at a non-digit |
| Chunker.DigitRunOfDigits | server.py:374 | the digit run of a numeral followed by a non-digit is the numeral |
| Chunker.ReadNumberOf | server.py:374 | a printed part number followed by its delimiter reads back |
| Chunker.ParseHeader | server.py:374 | a part's header reads back as its index, its total and its payload |
| Chunker.ChunksRead | server.py:370-375 | every part of a split text reads back as index `k+1` of `n`, carrying the `k`-th slice |
| Chunker.JoinTagsInOrder | server.py:370-375 | parts numbered 1..n of n in order concatenate to their payloads |
| Chunker.ConcatSlices | server.py:370-373 | the slices from position `j` on concatenate to the text from `j` times the limit on |
| Chunker.ReassembleChunks | server.py:360-376 | reading the parts back gives the original text: splitting loses, duplicates and reorders nothing |
| PollLoop.Candidate | server.py:456-462 | a message is new exactly when the page shows one and the newest is not in the history, and then it is the newest |
| PollLoop.Respond | server.py:467-480 | handling a message never changes the cycle count and only appends to what was sent |
| PollLoop.RememberFifo | server.py:478-480 | the history keeps at most five messages, drops the oldest when full and always holds the newest |
| PollLoop.HistoryBounded | server.py:478-480 | a cycle keeps the history at five messages or fewer |
| PollLoop.StepCounts | server.py:451 | each cycle increments the cycle counter by one |
| PollLoop.DuplicateIgnored | server.py:456-461 | a newest message already handled changes no file and sends nothing; only a due refresh clears the history and resends the instruction |
| PollLoop.NewMessageHandled | server.py:464-480 | a new message's handler's files are kept, the message is remembered, and the parts sent read back as the reply; nothing is sent for no reply |
| PollLoop.RaisedIsRetried | server.py:482-485 | when the handler raises, nothing is remembered, stored or sent, so the next cycle sees the message as new again |
| PollLoop.HandledOnce | server.py:461-478 | after a new message is answered it is no longer a candidate |
| PollLoop.StepOfNew | server.py:456-480 | a cycle with a new message and no refresh is exactly the response to that message's outcome |
| PollLoop.RefreshClears | server.py:497-505 | a scheduled refresh empties the history, and the parts sent last read back as the instruction text |
| PollLoop.RunInvariant | server.py:449-507 | over any number of cycles the counter advances by their number, the history stays bounded and sent messages are never taken back |
| PollLoop.StepKeepsSent | server.py:469-475 | a cycle only appends to the messages sent |
| PollLoop.OwnReplyNotAnswered | server.py:464-480 | with the server's router, the server's own reply on the page is remembered, but nothing is stored or sent |
| PollLoop.ChunkOpensHeader | server.py:374-375 | every part of a reply that was split opens with the `[` of its header |
| PollLoop.BracketIsNoPrefix | server.py:333-353 | a message opening with `[` carries neither a prefix nor a sentinel |
| PollLoop.ChunkedReplyAnswered | server.py:351-357 | every part of a reply longer than the limit, read back from the page, is answered with the "unrecognised" error, because its header hides the sentinel |
| PollLoop.OwnReplyPartAnswered | server.py:464-480 | when a part of the server's own long reply is the newest message, the loop remembers it and sends exactly one "unrecognised" error line |
| PollLoop.Server.constructor | server.py:443-445 | the loop starts with an empty history, counter zero and nothing sent |
| PollLoop.Server.SendAll | server.py:471-475 | the parts are sent in order; nothing else changes |
| PollLoop.Server.Deliver | server.py:467-480 | the loop's variables become the specified response to the outcome, and the history bound is kept |
| PollLoop.Server.Poll | server.py:454-480 | the loop's variables become the specified exchange for this cycle's page |
| PollLoop.Server.MaybeRefresh | server.py:497-505 | the loop's variables become the specified refresh |
| PollLoop.Server.Cycle | server.py:449-507 | one pass of the loop updates the variables as `Step` specifies and keeps the history bound |

## Left out

- The browser (Selenium) is not modelled. Reading the page (`get_response_messages`) is the input `polled`. Sending a message appends it to `sent`. `send_message` swallows its own errors (server.py:185-186), so a send that fails is still recorded in `sent`.
- Exceptions raised by the page reader are not modelled. In the model, the only thing that raises is a handler that cannot open its file (`Outcome.Raised`).
- `time.sleep` and all logging are left out, as they have no effect on state.
- The recovery refresh after an exception (server.py:484-495) acts only on the browser page. The model keeps the history as it was, as the code does.
- The infinite `while True` is modelled by `Step` and finite `Run`s; the loop never terminating is not stated.
- The instruction text (server.py:382-426) is a parameter of `Server`, not its literal contents.
- `subprocess.check_output` is not run. The input `env.run` maps the command and the current files to what the shell reports and the files the command leaves. The report is an exit status with output, a timeout or another error. What a command does beyond the files, such as network use, the clock or other processes, is not modelled.
- `datetime.now()` is the input `env.now`. `process_pamietnik` reads the clock twice; the model uses one reading for both.
- `os.getcwd()` is the input `env.cwd`. The file system is a map from path to text. Directories, `os.path.isfile` on directories, symbolic links and encoding errors are not modelled; a file that fails to open is listed in `env.unreadable` or `env.unwritable`.
- Windows paths are not modelled; `os.path` is its POSIX version.
- Chunker.CeilDiv: computes the ceiling exactly, where the source rounds up a floating-point quotient. The two agree for every text length a chat message can have.
- `Chunker.Reassemble` is not part of the source. It is the inverse used to state that splitting loses nothing.
- Entry point, driver start-up and the HTTP side of the repository are outside the message core and are not part of this model.
