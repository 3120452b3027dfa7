# A verified model of pupptyeer's daemon and clients

pupptyeer's daemon owns PTY sessions. One read loop per session hands every chunk, under one lock, to three places: a
scrollback ring, a terminal emulator behind a byte rewriter, and a changing set of subscribers with bounded queues. Other
threads create, attach to, resize, kill and collect sessions through a shared table. This project models that logic in
Dafny, together with the stream processors and the client code that depend on it, and proves what callers rely on.

`dafny verify dfyconfig.toml` verifies everything.

## How the model is built

Objects that the program updates in place are classes with the same fields and the same loops; each method is proved
against a function or a relation on values, and the lemmas are about those. Where threads interleave, a step system has one
step per critical section, per send, and per access to a shared flag, and its lemmas hold for every run, that is, for every
order in which enabled steps can follow one another.

| file | models |
|---|---|
| `Bytes.dfy` | byte strings, and the sequence facts the other files share |
| `Ring.dfy` | the scrollback ring: growing, compacting, circular |
| `Scorc.dfy` | the rewriting of ESC [ u into ESC 8 on the way to the emulator |
| `Fanout.dfy` | one session's stream as a step system: reads, attaches, replays, queues, overflow |
| `Arbitration.dfy` | which size the PTY gets when several clients have wishes |
| `Session.dfy` | the session object: its methods under the lock, as runs of `Fanout` and steps of `Arbitration` |
| `Registry.dfy` | the server's table of sessions |
| `Lifecycle.dfy` | creating, killing and ending sessions, as a step system over that table |
| `Detach.dfy`, `KeyConfig.dfy` | the detach sequence of an interactive attach, and the configuration of it |
| `Expect.dfy` | the rolling-window scanner of `ctl expect` |
| `LineReader.dfy` | newline-delimited messages, written and read back |
| `ClientCalls.dfy` | request and reply in the Go client |
| `Settle.dfy` | the two waits of a capture |
| `Render.dfy` | the rendered screen with wide cells |

`Fanout` is about the raw history of the PTY. `Session` ties it to the objects: the ring's refinement theorem and the
rewriter's chunk-invariance theorem are what make `Session.Session.ReadChunk` and `Session.Session.Attach` runs of `Fanout`, so what
`Fanout.ReplayGuarantee` says holds of the bytes the child wrote.

## Where the program falls short of what is said about it

Each of these has a lemma with a concrete input, and a lemma that says exactly when the promise does hold.

- A settled capture can take up to twice its timeout, and one poll (`PROTOCOL.md:75` promises one timeout):
  `Settle.LongestIsReached`, `Settle.PromiseHoldsIff`.
- A rendered line can be wider than the screen (`PROTOCOL.md:74` says padded to `cols`): `Render.WiderThanTheScreen`,
  `Render.LineFillsTheGrid`.
- The rewriter leaves ESC [ u alone when its ESC ends another sequence (`pkg/ptysession/scorc.go:44-49` says that any ESC [ u
  is rewritten): `Scorc.DoubledEscape`, `Scorc.Leftovers`.
- The emulator is not always given the bytes of the ring (`PROTOCOL.md:74` says it is): it gets them rewritten, and the
  last of them later: `Scorc.EmulatorSeesAnother`, `Scorc.EmulatorSeesTheStreamIff`.
- `ctl expect` misses a literal more than one byte longer than its window: `Expect.LastByteAlone`, `Expect.ExactIffItFits`.
- `ctl expect` slices past its buffer after an empty match at the buffer's end: `Expect.EndOfTextPanics`,
  `Expect.PanicsIffEmptyMatchAtEnd`.
- The detach matcher misses sequences of three or more keys that overlap themselves (the comment at
  `cmd/pupptyeer/ctl.go:505-507` says so): `Detach.RepeatedKeyIsMissed`, `Detach.ExactIffNoDivergence`.
- After a queue overflow a later chunk can still be queued, and the stream has a gap: `Fanout.GapAfterOverflow`,
  `Fanout.CompleteIffNothingLost`.
- A session whose child ends before it is registered is put into the table dead: `Lifecycle.DeadButListed`,
  `Lifecycle.AddListsTheDeadIff`, `Lifecycle.OutForGoodIff`, `Lifecycle.DeadEntryStaysIff`.
- A second `Kill` can return while the session is still in the table: `Lifecycle.SecondKillReturnsEarly`,
  `Lifecycle.KillWaitsIff`.
- The Go client's `Events` channel stays open when `Close` meets a reader that is about to deliver an event
  (`clients/go/client.go:126-127` says it is closed when the connection ends): `ClientCalls.EventsMayStayOpen`,
  `ClientCalls.EventsAreClosedIff`.

## Model

| member | source | states |
|---|---|---|
| Ring.Copy | pkg/ptysession/ring.go:43 | Go's copy between a string and a slice of an array: how much is copied, where to, and that the rest stays |
| Ring.RingBuffer.Append | pkg/ptysession/ring.go:17-34 | appends to the history, whatever the phase; every slot of the buffer then holds the right byte of the last `max` |
| Ring.RingBuffer.Extend | pkg/ptysession/ring.go:25 | Go's append, in place or into a larger array, loses nothing of what was there |
| Ring.RingBuffer.Compact | pkg/ptysession/ring.go:26-30 | the overlapping copy to the front leaves exactly the newest `max` bytes |
| Ring.RingBuffer.AppendCircular | pkg/ptysession/ring.go:37-48 | a write into the full ring, wrapping or longer than the ring, again leaves the last `max` bytes of the history |
| Ring.RingBuffer.WriteAround | pkg/ptysession/ring.go:43-46 | the two copies of a wrapping write put each byte into the slot that its age calls for |
| Ring.RingBuffer.Snapshot | pkg/ptysession/ring.go:50-61 | for every sequence of writes and every `max`: the last `max` bytes of all that was ever written |
| Scorc.TokensCover | pkg/ptysession/scorc.go:58-83 | tokens and held bytes are the whole stream, and what is held is "", ESC or ESC [ |
| Scorc.SplitIsUnique | pkg/ptysession/scorc.go:58-83 | tokens are a prefix code: a stream splits into tokens and a held rest in one way only |
| Scorc.ChunkInvariance | pkg/ptysession/scorc.go:50-86 | wherever the stream is cut, the outputs put together and the bytes held are those of the whole stream |
| Scorc.Idempotence | pkg/ptysession/scorc.go:58-83 | reading the output again finds the emitted tokens, no ESC [ u among them, and changes nothing |
| Scorc.Accounting | pkg/ptysession/scorc.go:58-83 | bytes in = bytes out + bytes held + number of rewrites; unchanged if and only if there was no ESC [ u token |
| Scorc.Untouched | pkg/ptysession/scorc.go:42-49 | a stream without ESC [ u passes unchanged |
| Scorc.EmulatorSeesTheStreamIff | PROTOCOL.md:74 | what the emulator was given is what was read if and only if no token was rewritten and nothing is held |
| Scorc.EmulatorSeesAnother | PROTOCOL.md:74 | for the three bytes ESC [ u it is given two others |
| Scorc.Leftovers | pkg/ptysession/scorc.go:68-72 | ESC [ u survives the rewrite if and only if its ESC is the last byte of another token |
| Scorc.DoubledEscape | pkg/ptysession/scorc.go:68-72 | ESC ESC [ u is copied as it is |
| Scorc.ScorcRewriter.Translate | pkg/ptysession/scorc.go:50-86 | fast and slow path alike: all output so far is the rewriting of all input so far, and `pending` is its held rest |
| Scorc.ScorcRewriter.Rewrite | pkg/ptysession/scorc.go:54-85 | the index loop computes the token rewrite of pending bytes and chunk, and leaves the incomplete token pending |
| Fanout.StepKeepsInv | internal/server/session.go:98-205 | every step of any thread keeps ring, emulator, lock, queues and each subscriber's stream in agreement with the history |
| Fanout.ReplayGuarantee | internal/server/session.go:98-184 | in every run, a subscriber that has lost nothing since its attach has received exactly the last bytes of the history at the attach, one `scrollback_end` if framed, and then every byte read since |
| Fanout.ThreeViews | pkg/ptysession/session.go:213-225 | in every run the ring is the end of the history, the emulator has the history rewritten, and no queue is over-full |
| Fanout.CompleteIffNothingLost | internal/server/server.go:244-260 | in every run, when the lock is free: an attached subscriber that is not shut down has its whole stream, marker and all, if and only if none of its frames found the queue full since the attach |
| Fanout.StreamIsSuffix | internal/server/session.go:169-205 | in every run, what a subscriber that lost nothing has received is an end piece of the history, and how long it is |
| Fanout.SuffixRelated | internal/server/session.go:98-108 | in every run, of the streams that two such subscribers have received one ends the other |
| Fanout.ChunksPartition | internal/server/session.go:174-181 | the replay frames put together are the snapshot, are not empty, hold at most 32 KiB, and are as few as possible: at most 8 |
| Fanout.AttachFits | internal/server/server.go:371-372 | with ten free places the answer, the replay and the marker all fit, whatever the selects choose |
| Fanout.SendsArrive | internal/server/server.go:244-260 | in every run, for every step and queue: a frame that is sent is queued last when there is room and no shutdown, lost only when 256 messages (64 chunks) wait; nothing else adds, loses or takes anything |
| Fanout.HistoryIsAllReads | pkg/ptysession/session.go:208-224 | the history is every chunk that was read, in order |
| Fanout.GapAfterOverflow | internal/server/server.go:251-259 | a run in which an attached connection that is not yet shut down has a gap in its stream |
| Fanout.PurgedRun | internal/server/server.go:244-260 | leaving out the steps that concern one subscriber gives a run that ends in the same state but for that subscriber |
| Fanout.SlowSubscriberIsolation | internal/server/raw.go:53-63 | two runs that differ only in one subscriber's doings give the same history, ring, emulator input and queues of all others |
| Arbitration.RunSettles | internal/server/session.go:213-239 | in every run: positive size, and the least positive wish in each dimension whenever both have one |
| Arbitration.VotesAreTheLastWords | internal/server/session.go:169-220 | in every run, read off the steps alone: whose wish counts, and that it is the one last expressed |
| Arbitration.PtyHasTheSize | pkg/ptysession/session.go:308-320 | the 16-bit size set on the PTY is the effective size if and only if that is below 65536 |
| Arbitration.ModestVotesStayModest | pkg/ptysession/session.go:308-320 | which it is when the initial size and all wishes are |
| Arbitration.NoWishNoChange | internal/server/session.go:235-237 | when some dimension has no wish the size stays as it is |
| Session.Conn.Send | internal/server/server.go:244-260 | a non-blocking select: queued last with room and no shutdown, left out with neither, either one when both cases are ready; and lost exactly when full and not shut down |
| Session.Conn.Receive | internal/server/server.go:270-285 | the writer takes the oldest message that has not been taken |
| Session.Conn.Shutdown | internal/server/raw.go:85-90 | sets the flag and nothing else |
| Session.Session.constructor | pkg/ptysession/session.go:112-171 | a new session is in the initial state, with the columns and rows asked for, 80 and 24 where none are, and their low 16 bits on the PTY |
| Session.Session.TakeIn | pkg/ptysession/session.go:214-220 | ring and emulator take in the same chunk |
| Session.Session.Emulate | pkg/ptysession/session.go:215-220 | the emulator is given the rewriting of the held bytes and the chunk |
| Session.Session.OnOutput | internal/server/session.go:98-108 | one send to each attached connection and each raw subscriber, in whatever order the maps give |
| Session.Session.ReadChunk | pkg/ptysession/session.go:208-225 | the body of the read loop is one run of the step system: the chunk, the sends, the release |
| Session.Session.Attach | internal/server/session.go:169-184 | the body of attach is one run of the step system, adds the wish, and recomputes the size |
| Session.Session.SendScrollback | internal/server/session.go:174-182 | the loop sends the frames of the snapshot in order, and then the marker |
| Session.Session.Detach | internal/server/session.go:186-192 | removes the connection and its wish, recomputes the size, touches no stream |
| Session.Session.AttachRaw | internal/server/session.go:198-205 | the same for a raw subscriber: one frame with the whole snapshot unless it is empty, and no marker |
| Session.Session.DetachRaw | internal/server/session.go:207-211 | removes the raw subscriber and touches no stream |
| Session.Session.ResizeFrom | internal/server/session.go:213-220 | changes the wish of an attached connection only, and recomputes the size |
| Session.Session.LeastWishes | internal/server/session.go:226-234 | the loop's running minima are the least positive wishes, in any map order |
| Session.Session.RecomputeSize | internal/server/session.go:225-239 | the size becomes what the wishes call for, or stays |
| Session.Session.ResizeLocked | pkg/ptysession/session.go:308-320 | the new size, and its low 16 bits on the PTY, unless it is not positive or already there |
| Session.Session.OnExit | internal/server/session.go:112-141 | lets go of everybody, tells each framed connection once, and shuts each raw one |
| Session.Session.LetGo | internal/server/session.go:115-126 | the part under the lock: whom it returns, and that nobody is left |
| Session.Session.TellAll | internal/server/session.go:128-135 | every connection is told, none twice |
| Session.Session.Tell | internal/server/session.go:129-133 | the exit code unless killed, and then `session_closed`; both are queued when there is room |
| Session.Session.ShutAll | internal/server/session.go:136-139 | every raw subscriber is shut down, its queue otherwise left alone |
| Registry.NamespacesStayApart | internal/server/server.go:28-37 | the empty namespace is "default", and no other two namespaces are the same |
| Registry.Server.AddSession | internal/server/server.go:118-132 | the winner is the live holder, or the offered session, which then holds the key; everything else stays |
| Registry.Server.RemoveSession | internal/server/server.go:134-146 | afterwards the session is nowhere in the table, and nothing else has changed |
| Registry.Server.GetSession | internal/server/server.go:148-152 | finds the session under the normalised key, if there is one |
| Lifecycle.StepKeepsInv | internal/server/server.go:123-146 | every step of creators, read loops and killers keeps sessions, table, notes and kills in order |
| Lifecycle.StepKeepsHolder | internal/server/server.go:134-146 | no single step takes a key away from a live session |
| Lifecycle.HolderKeepsItsKey | internal/server/server.go:118-146 | over any run: once a key maps to a live session it maps to that session for as long as the session lives |
| Lifecycle.NoOrphan | internal/server/server.go:331-363 | in every reachable state a live session is listed, or not yet offered, or about to be discarded by the loser of the race; at most one accepted session per key is live |
| Lifecycle.KillReturnsAfterExit | pkg/ptysession/session.go:493-509 | a `Kill` that waited returns after onExit is over: run once, all told, out of the table unless offered later |
| Lifecycle.NotesAreExact | internal/server/session.go:128-135 | at most one `session_closed` to anybody, exactly one to those found attached, none to later ones, no exit code if the kill came first |
| Lifecycle.ClearTakesTheAttached | internal/server/session.go:115-126 | those who are told are those attached when the set is cleared |
| Lifecycle.AttachedIff | internal/server/session.go:169-192 | in every run, read off the steps alone: a client is attached from its attach until its detach or onExit |
| Lifecycle.MarksAreRight | pkg/ptysession/session.go:267-289 | read off the run: killed before the end means that the flag was set when the child was reaped, late that onExit had withdrawn the session when it was accepted, and onExit has run as often as it began |
| Lifecycle.KilledIff | pkg/ptysession/session.go:493-497 | in every run a session is killed if and only if some call of `Kill` has set the flag |
| Lifecycle.OutForGoodIff | internal/server/server.go:134-146 | in every reachable state: when onExit withdraws the session, no continuation lists it again if and only if its creator had offered it by then |
| Lifecycle.AddListsTheDeadIff | internal/server/server.go:118-132 | in every reachable state: offering a session lists it although onExit has withdrawn it, if and only if onExit has and no live session holds the key |
| Lifecycle.DeadEntryStaysIff | internal/server/server.go:118-132 | over any run: a dead session in the table stays there if and only if no other is offered under its key |
| Lifecycle.KillWaitsIff | pkg/ptysession/session.go:493-509 | in every reachable state: in every continuation a `Kill` begun there returns only after onExit, if and only if it finds the session alive, or not killed, or over |
| Lifecycle.ExitRunsToItsEnd | pkg/ptysession/session.go:267-289 | from any point in onExit a series of steps of that read loop alone, each of which can be taken, leads to its end: it waits for nobody |
| Lifecycle.DeadButListed | internal/server/server.go:123-132 | a run that leaves a dead session in the table |
| Lifecycle.SecondKillReturnsEarly | pkg/ptysession/session.go:494-496 | a run in which a `Kill` returns before onExit has begun |
| Detach.ExactIffNoDivergence | cmd/pupptyeer/ctl.go:499-507 | the matcher detaches exactly at the end of the first occurrence, on every stream, if and only if no beginning of the sequence that ends another goes on differently |
| Detach.TwoKeysAreExact | cmd/pupptyeer/ctl.go:499-507 | sequences of one or two keys are exact |
| Detach.ThreeKeys | cmd/pupptyeer/ctl.go:505-507 | three keys are exact if and only if they are not of the form a a b |
| Detach.RepeatedKeyIsMissed | cmd/pupptyeer/ctl.go:505-507 | the sequence a a b is missed in a a a b |
| Detach.DetachMatcher.Feed | cmd/pupptyeer/ctl.go:517-542 | for every chunking: detaches at the first byte that completes the match, and bytes forwarded and bytes held are the bytes consumed |
| Detach.DetachMatcher.FeedByte | cmd/pupptyeer/ctl.go:522-540 | one turn of the loop keeps that account |
| KeyConfig.ParseHexIs | cmd/pupptyeer/config.go:174-180 | the number that the digits stand for when all are hexadecimal and it fits a byte, a refusal otherwise |
| KeyConfig.ParseHexIgnoresCase | cmd/pupptyeer/config.go:174-180 | digits in upper and lower case are the same |
| KeyConfig.ControlByte | cmd/pupptyeer/config.go:204-216 | which characters have a control byte, and which it is: the place in the alphabet for a letter in either case, DEL for `?` |
| KeyConfig.SpaceAround | cmd/pupptyeer/config.go:169 | white space before and behind a spec makes no difference |
| KeyConfig.UsualSpellings | cmd/pupptyeer/config.go:162-168 | the modifiers and words that are known, in upper and lower case |
| KeyConfig.ModifiedKey | cmd/pupptyeer/config.go:181-201 | `ctrl-`, `ctrl+`, `c-` in any case and `^` before an ASCII key all give its control byte |
| KeyConfig.ModifierWithoutKey | cmd/pupptyeer/config.go:198-200 | a modifier with no key or with several is refused |
| KeyConfig.BareKey | cmd/pupptyeer/config.go:192-196 | a single character is a key where that is allowed, and is refused where not |
| KeyConfig.HexKey | cmd/pupptyeer/config.go:174-180 | `0x` or `0X` and the digits of a byte is that byte, and with anything else behind it is refused |
| KeyConfig.DisabledKey | cmd/pupptyeer/config.go:169-173 | none, off and disabled, in any case, are no key |
| KeyConfig.WordsAreNoKeys | cmd/pupptyeer/config.go:192-197 | other text of two or more characters is refused |
| KeyConfig.PrefixThenKey | cmd/pupptyeer/config.go:143-161 | a prefix and a character give the prefix byte first and the character second; the character alone is invalid |
| KeyConfig.TmuxBinding | cmd/pupptyeer/config.go:157-158 | "ctrl-b" and "d" give 0x02 0x64 |
| KeyConfig.BadAndDisabledKeys | cmd/pupptyeer/config.go:143-161 | the binding is invalid, off, or a sequence exactly when its parts say so, with the key last and the prefix first |
| KeyConfig.DefaultBinding | cmd/pupptyeer/config.go:129-133 | what is in force when nothing is configured is the one key 0x1c |
| KeyConfig.ConfiguredBindingsAreExact | cmd/pupptyeer/config.go:143-161 | every binding the configuration can produce has one or two keys and is matched exactly |
| Expect.IndexIsFirst | cmd/pupptyeer/ctl.go:874-878 | the search for a literal finds its first occurrence, or there is none |
| Expect.FirstMatchIsFirst | cmd/pupptyeer/ctl.go:863-880 | what is reported is the expression's match or an occurrence of the literal, none is earlier, the expression wins a tie, and nothing is reported only when neither is there |
| Expect.HitsOccur | cmd/pupptyeer/ctl.go:784-799 | every reported offset is an occurrence |
| Expect.HitsApart | cmd/pupptyeer/ctl.go:784-799 | no two reported occurrences overlap |
| Expect.HitsCover | cmd/pupptyeer/ctl.go:784-799 | every occurrence is reported, or overlapped by a reported one that starts at or before it |
| Expect.FollowStaysOnTrack | cmd/pupptyeer/ctl.go:780-806 | for every chunking the window is the end of the stream, and the reports are the greedy occurrences in it |
| Expect.TrimStaysOnTrack | cmd/pupptyeer/ctl.go:800-804 | cutting the window loses no occurrence of a literal of at most window + 1 bytes, whatever comes later |
| Expect.LastByteAlone | cmd/pupptyeer/ctl.go:800-804 | a longer literal is missed when its last byte comes alone, however the rest was cut |
| Expect.ExactIffItFits | cmd/pupptyeer/ctl.go:780-806 | reports are exact for every division into frames of at most 32 KiB if and only if the literal has at most window + 1 bytes |
| Expect.PanicsIffEmptyMatchAtEnd | cmd/pupptyeer/ctl.go:790-794 | scanning on runs off the end of some buffer if and only if the pattern can match emptily at an end |
| Expect.FirstOutputPanics | cmd/pupptyeer/ctl.go:790-794 | an armed scanner whose first output is such a buffer dies, in either mode |
| Expect.EndOfTextPanics | cmd/pupptyeer/ctl.go:829-834 | a scanner for the expression `$` dies on its empty buffer at the end of the scrollback |
| Expect.LiteralNeverPanics | cmd/pupptyeer/ctl.go:790-794 | a literal alone never does |
| Expect.Scanner.OnScrollbackEnd | cmd/pupptyeer/ctl.go:829-834 | arms the scanner, and scans |
| Expect.Scanner.OnOutput | cmd/pupptyeer/ctl.go:835-846 | adds the chunk to the window when armed, and then reports what a scan of it must |
| Expect.Scanner.Scan | cmd/pupptyeer/ctl.go:780-806 | the loop's reports and window are those of the specification, in one-shot and in follow mode, up to a crash |
| Expect.Scanner.Report | cmd/pupptyeer/ctl.go:789-795 | moves past the match, or crashes exactly when that is past the end |
| Expect.Scanner.CutToWindow | cmd/pupptyeer/ctl.go:800-804 | keeps the last bytes, and the offset with them |
| Expect.ScanReportsTheFirst | cmd/pupptyeer/ctl.go:780-806 | a scan prints the first match at its offset in the stream, and in one-shot mode is over then; without a match it prints nothing and waits |
| Expect.ScannerFollows | cmd/pupptyeer/ctl.go:835-846 | a chunk through the scanner object is a chunk through the function proved exact |
| LineReader.LinesAreUnique | clients/python/pupptyeer_client.py:115-116 | a stream splits into lines and an unfinished rest in one way only |
| LineReader.ChunkInvariance | clients/python/pupptyeer_client.py:107-116 | wherever the stream is cut, the lines and the rest are the same |
| LineReader.WireIsTerminated | internal/protocol/protocol.go:139-145 | messages written one after the other are one line each, and those lines read as those messages |
| LineReader.LinesStandAlone | clients/python/pupptyeer_client.py:116-123 | an empty or malformed line changes nothing about the lines before and behind it |
| LineReader.RoundTrip | internal/protocol/protocol.go:139-145 | reading what was written gives back exactly the messages, in order, and keeps an unfinished one |
| LineReader.Reader.OnChunk | clients/python/pupptyeer_client.py:104-123 | for every chunking: routed so far are the messages of all bytes so far, and the buffer is the unfinished line |
| ClientCalls.StepKeepsInv | clients/go/client.go:144-217 | every step of calls, reader and Close keeps ids, channels, the reader's message and the events in order |
| ClientCalls.ReplySendsNeverBlock | clients/go/client.go:163-183 | whenever the reader sends a reply, also in failPending under the mutex, the channel has room |
| ClientCalls.OneReplyEach | clients/go/client.go:193-217 | a call gets at most one reply: the first message with its id since it began, or the error when there was none; and it returns that reply, or a write error, or that the connection is closed, which it then is, taking no reply |
| ClientCalls.TakeReturnsTheReply | clients/go/client.go:208-213 | a waiting call with a reply in its channel can return it, and it is the right one |
| ClientCalls.HowCallsReturn | clients/go/client.go:202-216 | a call returns its reply only from the channel, a write error only while writing, and "connection closed" only when it is |
| ClientCalls.CallsGoThrough | clients/go/client.go:193-217 | from every state in which the reader is listening a call can be made and return its answer, leaving events and pending calls as they were |
| ClientCalls.EventsAreTheRest | clients/go/client.go:168-172 | events are the messages no call received, in wire order, but for at most one in the reader's hands |
| ClientCalls.NobodyIsForgotten | clients/go/client.go:176-183 | when failPending is through, every call has its reply or had failed to write |
| ClientCalls.CallsReturnAfterTheReader | clients/go/client.go:208-216 | after the reader has returned, a waiting call can always return |
| ClientCalls.EventsAreClosedIff | clients/go/client.go:126-127 | in every reachable state: in every continuation without another Close Events is closed when the reader returns, if and only if the connection is not closed or the reader has met its error |
| ClientCalls.EventsCloseWithoutClose | clients/go/client.go:144-173 | in every run without Close the reader does not give up, and the connection is closed only together with Events |
| ClientCalls.CloseUnderAnEvent | clients/go/client.go:168-172 | in every state in which the reader has an event to deliver, Close lets it return with Events open for ever |
| ClientCalls.EventsStayAsTheyAre | clients/go/client.go:144-173 | after the reader has returned no step of anybody opens or closes Events |
| ClientCalls.EventsMayStayOpen | clients/go/client.go:168-172 | a run after which Events is never closed |
| ClientCalls.Client.BeginCall | clients/go/client.go:194-199 | a fresh id, a fresh channel, registered under it |
| ClientCalls.Client.Forget | clients/go/client.go:202-207 | a call that could not be written is no longer pending |
| ClientCalls.Client.Await | clients/go/client.go:208-216 | the select takes the reply from the channel, or nothing if the connection is closed |
| ClientCalls.Client.NextEvent | clients/go/client.go:136 | the application takes the oldest event that it has not taken |
| ClientCalls.Client.Shutdown | clients/go/client.go:139-142 | closes the connection and changes nothing else |
| ClientCalls.Client.Offer | clients/go/client.go:168-172 | the select for an event: queued when there is room, dropped when the connection is closed, and waiting only when neither |
| ClientCalls.Client.Answer | clients/go/client.go:155-166 | a reply goes to the channel of the pending call, which has room, and the call is pending no longer |
| ClientCalls.Client.Route | clients/go/client.go:155-172 | a reply goes to its waiter and to nobody else, anything else is offered to Events; as steps of the step system |
| ClientCalls.Client.FailCall | clients/go/client.go:178-181 | one pending call gets the error, and is pending no longer |
| ClientCalls.Client.FailPending | clients/go/client.go:176-184 | in any map order: all pending calls get the error with their own id, and nothing is pending; as a run of the step system |
| Settle.SettleEndsInTime | pkg/ptysession/session.go:441-467 | with exact sleeps the settle wait never passes its deadline, and ends before it only if the window was met |
| Settle.LockEndsInTime | pkg/ptysession/session.go:347-359 | the lock wait ends by the last poll, and before the time is up only with the lock |
| Settle.Budget | pkg/ptysession/session.go:365-368 | the timeout asked for, or five seconds |
| Settle.SettleIsPrompt | pkg/ptysession/session.go:441-467 | once the PTY is quiet the settle wait ends as soon as the window is over |
| Settle.LockIsPrompt | pkg/ptysession/session.go:347-359 | a lock that has become free is taken within 2 ms, if that is before the deadline |
| Settle.CaptureBound | pkg/ptysession/session.go:363-374 | for every PTY and every lock: a capture takes less than twice its budget and one poll |
| Settle.LongestIsReached | pkg/ptysession/session.go:363-374 | the exact bound is reached |
| Settle.PromiseHoldsIff | PROTOCOL.md:75 | the timeout bounds the whole capture if and only if it does not settle and its timeout is a whole number of polls |
| Settle.WaitSettle | pkg/ptysession/session.go:437-467 | terminates whatever the activity and however late the sleeps, none of them longer than 25 ms; returns only with no activity in the window, or past the deadline |
| Settle.LockTimeout | pkg/ptysession/session.go:347-359 | returns with the lock found free, or past its time; tries every 2 ms, and terminates though the lock is never free |
| Settle.Capture | pkg/ptysession/session.go:363-374 | the two waits one after the other, with their bound |
| Render.PieceAt | pkg/ptysession/session.go:405-420 | for every column of the grid: the piece printed there starts in the line where its cell starts in the grid |
| Render.CellsKeepTheirColumns | pkg/ptysession/session.go:415-420 | a cell that no cell before it covers is printed in its own column |
| Render.NothingIsLost | pkg/ptysession/session.go:415-420 | when the columns under wide cells are empty, every cell with content is printed, in its own column |
| Render.TextInItsColumn | pkg/ptysession/session.go:405-420 | a text that no earlier cell reaches is printed as it is, in its own column |
| Render.LineFillsTheGrid | PROTOCOL.md:74 | a line is at least as wide as the grid, and exactly as wide if and only if no printed cell sticks out of it |
| Render.WiderThanTheScreen | PROTOCOL.md:74 | a wide cell in a grid one column wide |
| Render.NarrowLine | PROTOCOL.md:74 | without wide cells a line has exactly one character per column, a space where there is nothing |
| Render.OrdinaryLine | PROTOCOL.md:74 | with cells of one character and empty columns every character stands in its column and every other column is a space |
| Render.Pad | pkg/ptysession/session.go:421-423 | adds exactly the missing spaces |
| Render.RenderRow | pkg/ptysession/session.go:403-424 | the column loop prints the specified line; its width is the column reached, so that the padding adds nothing |
| Render.RenderLocked | pkg/ptysession/session.go:398-425 | exactly one line per row, in order |

## Left out

- KeyConfig.ModifiedKey: is about ASCII keys; trimming and lower-casing of other text follow Unicode tables, and only what `KeyConfig.Sound` says is known of them.
- Session.Session.OnExit: takes `killed` and the set of connections as fixed while it works, and stops before the session withdraws from the table; `Lifecycle` has all of it step by step among other threads. That a connection forgets the session is left out.
- Settle.CaptureBound: assumes sleeps of exactly the length asked for; with longer ones only `Settle.WaitSettle` and `Settle.LockTimeout` hold.
- Expect.ExactIffItFits: does not cover `--strip-ansi`, which works on one chunk at a time and so depends on the chunking by design, nor the idle, exit and timeout triggers.
- LineReader.RoundTrip: knows JSON only as printing to one non-empty line and parsing back; text that is not UTF-8 is not part of it.
- The methods of `Session` and `Registry` are one thread's work under a lock; interleavings are in `Fanout` and `Lifecycle`, where `Kill` may come from any thread, which covers requests, gc, discarding and closing.
- The cursor and the alternate-screen flag of a rendered screen are copied from the emulator and left out.
- The terminal emulator, regular expressions, JSON and base64 are abstract: the emulator is the bytes it was given, a regular expression is its leftmost match.
- Processes, PTYs and sockets are the source of chunks, of the child's end and of write errors, in any order; resizing the PTY is assumed to succeed.
- Hooks are taken to run only after the session object is complete; the start-up window before that is not modelled.
- The wait of `Kill` for the goroutine that drains the emulator's replies is left out; it waits for the read loop.
- The set of sessions a connection keeps for its own shutdown is left out: an attach that overtakes a shutdown can leave a connection attached, and `Fanout` allows that.
- Which sessions gc picks, listing, `EnsureSession`'s result and the checks of `new_session` before it spawns are single reads that other threads can overtake; `Lifecycle` allows a spawn at any time.
- The Python client's choice between waiter and handlers is left out; the Go client's is modelled in full.
- The TypeScript client decodes text chunk by chunk, so that chunking matters to it; it is left out.
- Ids, offsets, counters and durations are unbounded; the 16-bit size of the PTY is not.
- The Go decoder's limit of 1 MiB per line is left out.
- The MCP and HTTP layers, service installation, path resolution, configuration files and the parsing of flags are left out.
