# Dafny models of the driver and mudlib cores

The project models several small cores of the FluffOS driver and of the mudlib that ships with
it, and proves properties of them. Code that changes state step by step (the input buffer, the
snoop links, the tick queue, the preprocessor, the weight and equipment ledgers, the cursor of
the JSON parser, the path and base64 loops) is imperative Dafny over real fields and arrays:
each method is proved against a function on values, and the main theorems are lemmas about runs
of those functions. Code that is already expressions and recursion is functions and lemmas.

| File | What it holds |
|---|---|
| `Wrappers.dfy` | the option type |
| `InputBuffer.dfy` | the fixed text buffer of a connection with its two moving indices: cleaning, storing, the space check, cutting commands out |
| `StreamCut.dfy` | the lines of a byte stream as a whole |
| `InputStream.dfy` | runs of arrivals and command events, and what they deliver compared with the byte stream |
| `LineEditing.dfy` | backspace and delete: what is typed, and runs of it |
| `MudFrames.dfy` | the length-prefixed framing mode, from single reads to whole streams |
| `Chains.dfy` | finite maps in which every key has one successor: acyclicity, height |
| `SnoopGraph.dfy`, `Snoop.dfy` | the snoop links as a graph and as pointers and flags; delivery of messages up the chain |
| `TickSpec.dfy`, `TickRuns.dfy`, `TickTraces.dfy`, `Backend.dfy` | the tick queue: one event at a time, whole runs and what they log, and the batch loops of the driver |
| `MacroTable.dfy`, `Conditionals.dfy`, `Preprocessor.dfy` | the hash-chained definition table, conditional lines and the trees they come from, and the preprocessor loops |
| `JsonStrings.dfy`, `JsonEscapes.dfy`, `JsonLengths.dfy`, `JsonSpec.dfy`, `JsonRoundTrip.dfy`, `JsonExact.dfy`, `JsonSpaces.dfy`, `Json.dfy` | string escapes as sequences of whole-string replacements, printer and parser, the round trip, and the cursor-based code |
| `Containment.dfy`, `Encumbrance.dfy` | who is inside what, and the cached encumbrance |
| `Equipment.dfy` | worn and wielded items and the cached bonuses |
| `Paths.dfy` | the two path normalisers |
| `Base64.dfy`, `Svalues.dfy` | base64 and the value trees of the object-file converter |
| `ChineseNumber.dfy` | the numeral printer |

Where the code is not what one would expect, the model keeps the code, and the exception is
stated as a lemma:

- A telnet read that has at least as many bytes waiting as it may take loses the last byte it
  takes (`InputStream.ReadStores`): the space check allows one byte more than the loop stores.
- A space reset that hits complete but not yet delivered lines leaves `CMD_IN_BUF` set, and the
  next command event hands out an unterminated line (`InputStream.ResetWithPendingLines`; a run
  that gets there is `InputStream.ResetRun`). The ledger of lines is right after every event
  exactly when that never happens (`InputStream.LosesExactlyTheLinesHit`).
- A `\r\n` cut in two by the network counts as two line ends when the first half has been handed
  out before the second arrives (`InputStream.SplitPairMatters`). `InputStream.DeliversTheStream`
  gives the exact condition, `InputStream.OneExtraCommand` what it costs, and
  `InputStream.DeliversTheTexts` what it never costs: a line that holds text.
- An arrival in which erase bytes keep the end of the text from growing is not searched for a
  command (`InputStream.MissesExactly`, `InputStream.EraseHidesLine`).
- The JSON printer and parser are exact on all backslash-free strings. Over all strings without
  NUL they are so exactly when `JsonRoundTrip.Survives` holds and no backslash stands before a u,
  stated as an equivalence in `JsonRoundTrip.StringRoundTrip`; a trailing backslash makes the text
  unreadable.
- `move()` into something inside the moved object changes the books before the driver refuses it,
  so all from the destination up to the object then carry its load once too often
  (`Encumbrance.Thing.Move`).
- A MUD-port frame that announces a length of 0 stalls the port (`MudFrames.ZeroHeaderStays`), and
  one with the top bit set makes it collect without end (`MudFrames.NegativeHeaderStays`).
- `remove()` takes only the object's own weight off the books, so the ledger is right afterwards
  exactly when nothing with weight was left inside (`Encumbrance.RemovedBalance`).
- An old weapon that is both `SECONDARY` and `TWO_HANDED` is put away, not switched, when another
  weapon takes its hand: its nested `wield()` is refused (`Equipment.Character.SwitchHands`).
- `chinese_number` never returns for the least 64-bit number, and for that one only
  (`ChineseNumber.EndsUnlessLeast`).
- `handle_else` does not look whether an `else` has been seen already: a second one in a live
  part skips to the end of the condition (`Conditionals.LaterElsesAreDead`).

Two remarks on `run/adm/daemons/chinesed.c`: lines 62-64 repeat the condition of the branch before
them and cannot be reached, so the model has no such branch; and the hundred-million branch puts a
零 only before remainders below a million (line 93), not below ten million, which the model keeps.
Injectivity holds all the same.

## Model

| member | source | states |
|---|---|---|
| `InputStream.DeliversTheStream` | src/comm.cc:694-788 | over any chunking without resets and any interleaving of arrivals and command events (compactions included): after every event the commands delivered plus the complete lines still in the window are exactly the stream's lines in order and the window's tail is the stream's tail, if and only if no arrival completes a `\r\n` or `\n\r` whose first half has been handed out as a terminator already and then begins an odd run of alternating terminator bytes; `CMD_IN_BUF` then holds exactly when a full line is pending, and a command event is scheduled exactly then |
| `InputStream.OneExtraCommand` | src/comm.cc:1039-1046 | every arrival that shifts the lines costs exactly one more command, an empty one, where the pair was taken apart; the tail stays right |
| `InputStream.DeliversTheTexts` | src/comm.cc:694-1053 | for every chunking without resets at all: the non-empty commands delivered and pending are exactly the non-empty lines of the stream, in order, the tail is right, and flag and event agree with the window |
| `InputStream.Drains` | src/comm.cc:1151-1244 | as many command events as there are pending lines deliver every complete line of the stream and leave only the unterminated rest |
| `InputStream.LosesExactlyTheLinesHit` | src/comm.cc:711-723 | over runs on `\n` streams with any resets: after every event the commands delivered and pending are the stream's lines without exactly the lines a reset hit, if and only if no reset hits a complete undelivered line; a single unterminated line that is hit is lost through its terminator, also across repeated resets, every other line whole and in order |
| `InputStream.HitBreaksLedger` | src/comm.cc:711-723 | a reset that hits complete undelivered lines always leaves fewer commands delivered and pending than the lines no reset is charged with, whatever arrives with it |
| `InputStream.ResetWithPendingLines` | src/comm.cc:711-723 | a reset that hits complete lines leaves `CMD_IN_BUF` set, and the next command event hands out unterminated new text |
| `InputStream.ResetRun` | src/comm.cc:707-788 | such a run from a new connection on: after two arrivals the one complete line of the stream is never delivered and unterminated text is |
| `InputStream.ReadStores` | src/comm.cc:954-983 | of the plain bytes waiting on the socket, a read stores everything it takes exactly when all of them fit; otherwise it takes as much as the buffer is long and the last byte taken is dropped |
| `InputStream.SplitPairMatters` | src/comm.cc:1039-1046 | a concrete case: `\r\n` in one arrival is one line end; cut in two with a command event between, it yields an additional empty command |
| `StreamCut.CutIsSplit` | src/comm.cc:1009-1053 | the reference cut of a stream without `\r` is the plain split at `\n`: joining the lines again gives the stream, and no line holds a `\n` |
| `StreamCut.LineEnds` | src/comm.cc:1033-1046 | the bytes 10, 13, 13 10 and 10 13, and no others, end a line |
| `StreamCut.CutAppend` | src/comm.cc:1009-1053 | cutting a stream may be resumed at every boundary: behind the last terminator, or one byte later where the new data completes it |
| `StreamCut.OneByteMore` | src/comm.cc:1039-1046 | cutting from a terminator byte on instead of behind it gives one more empty line if the run of alternating terminator bytes is odd, and the same lines if it is even |
| `StreamCut.TextsAppend` | src/comm.cc:1009-1053 | for non-empty lines cutting may be resumed anywhere, also inside a terminator |
| `InputStream.FireTakesLine` | src/comm.cc:1009-1053 | a command event hands out the window's first line, drops it with its one- or two-byte terminator, and leaves flag and event agreeing with what is left |
| `InputStream.ArriveAppends` | src/comm.cc:702-788 | an arrival that needs no reset appends its (translated) bytes to the window, compacted or not, and announces a complete line |
| `InputStream.ArriveSkipping` | src/comm.cc:876-886 | while a line is skipped, or with a reset, an arrival drops everything through the first terminator and keeps what follows |
| `InputStream.StaysInStep` | src/comm.cc:694-1053 | the invariant behind the delivery theorem: window, delivered commands and flags stay in step with the stream through every event that does not shift the lines, and one that does breaks the equation at once |
| `InputStream.StaysTracked` | src/comm.cc:694-1053 | the same with the set of lines lost to resets |
| `InputStream.IndicesInRange` | src/comm.cc:694-1053 | over every run of a connection, whatever bytes arrive and whenever commands are taken, the input mode changes or the driver empties the buffer, both indices stay inside the array, and a due compaction never has a negative length |
| `InputStream.MissesExactly` | src/comm.cc:766-786 | an arrival leaves a command in the buffer without `CMD_IN_BUF` exactly if the flag was not set before, the end of the text did not grow (erase bytes), and there is a command: flag and event are then as before |
| `InputStream.EraseHidesLine` | src/comm.cc:766-786 | a concrete case: with one byte in the buffer, an arrival of delete and `\n` leaves a complete line with neither flag nor event |
| `InputBuffer.Interactive.constructor` | src/user.cc:23-29 | a new connection is all zeros: an empty window, no flag and no event |
| `InputBuffer.Interactive.CleanBuf` | src/comm.cc:863-889 | on every buffer, erase bytes included: terminates with every access in range; leaves both indices 0 or a non-empty window on a non-NUL byte; drops leading NULs and a skipped line through its terminator; says whether text is left |
| `InputBuffer.Clean` | src/comm.cc:863-889 | for every buffer state: both indices 0, or a non-empty window inside the array that starts on a non-NUL byte and ends where it did |
| `InputBuffer.MakeRoom` | src/comm.cc:707-724 | after the space check at least a sixteenth of the buffer is free behind either index; when the check is due the window is not inverted, so what a compaction moves has a length |
| `InputBuffer.Interactive.OnUserInput` | src/comm.cc:954-983 | stores bytes up to `MAX_TEXT - 1`, erases with 8 and 127 in line mode (which may pull the end below the start) and stores them in character mode, replaces 27 by 32 when configured; no write outside the array (what that comes to is in `LineEditing`) |
| `LineEditing.PairIsErased` | src/comm.cc:960-982 | in line mode a byte and an 8 or 127 behind it leave the connection as if neither had been received, whatever follows |
| `LineEditing.ReachesBack` | src/comm.cc:960-982 | erase bytes that reach back into what earlier arrivals left edit the window in the same way, as long as they find something to take back |
| `LineEditing.CharacterMode` | src/comm.cc:960-982 | in character mode every byte is stored, 8 and 127 included |
| `LineEditing.StoredBytes` | src/comm.cc:972-980 | bytes are stored as they are, but for 27, which becomes 32 when configured |
| `LineEditing.TypedPair` | src/comm.cc:960-982 | putting such a pair anywhere into what is typed does not change the edited text |
| `LineEditing.ArrivesAsTyped` | src/comm.cc:694-788 | an arrival that takes back only bytes of its own does exactly what its edited text would do, storage, flag and event included |
| `LineEditing.RunsAsTyped` | src/comm.cc:694-1053 | and so does every run of such arrivals and command events: the commands handed out are those of the run on the edited texts |
| `LineEditing.DeliversWhatIsTyped` | src/comm.cc:694-1053 | the delivery theorem for streams with erase bytes: the commands delivered and pending are exactly the lines of what was typed |
| `InputBuffer.Interactive.CmdInBuf` | src/comm.cc:986-1007 | cleans the buffer and says whether a terminator, or any byte in character mode, is in the window |
| `InputBuffer.Interactive.FirstCmdInBuf` | src/comm.cc:1009-1053 | cuts the first line with its terminator (or one byte in character mode) off the window and clears `CMD_IN_BUF` exactly when no further command is there |
| `InputBuffer.Interactive.GetUserData` | src/comm.cc:694-788 | space check (compaction, or reset with skipping), one bounded read, storage, and the announcement of a command, as one step of the connection, which leaves it ready for the next event whatever the bytes |
| `InputBuffer.Interactive.OnUserCommand` | src/comm.cc:1060-1090 | one command event: the command (up to its first NUL) is handed out if the flag is set, and the event is scheduled again exactly if the flag stays set |
| `InputBuffer.PastLineSteps` | src/comm.cc:1033-1046 | dropping the line and its terminator equals the source's byte-wise advance |
| `MudFrames.DeliversTheFrames` | src/comm.cc:726-732 | for every list of payloads of 1 to `MAX_TEXT - 5` bytes and every chunking of their stream, the payloads delivered are the first framed ones, in order, the port stays open, and once everything has been read they are all of them with nothing half collected |
| `MudFrames.NothingLeft` | src/comm.cc:789-814 | inside a stream of frames with nothing left to read, no frame is outstanding and nothing is half collected |
| `MudFrames.StepInside` | src/comm.cc:726-814 | one read keeps the reader inside the frame sequence |
| `MudFrames.SwappedReadsBack` | src/comm.cc:795-796 | the in-place `ntohl` turns a network-order length into the host's for every length below 2^31 |
| `MudFrames.HeaderBytes` | src/comm.cc:795-796 | the header is the length with its most significant byte first; the longest payload is 2^20 - 5 bytes |
| `MudFrames.MudPort.GetUserData` | src/comm.cc:726-814 | behind any header, as long as what is read fits into the buffer (behind a good one it always does): reads at most what is missing of the header or payload, or all there is when the size is negative; converts the header in place, hands out the payload and starts over; the terminating zero is written inside the array |
| `MudFrames.MudPort.ConvertHeader` | src/comm.cc:794-798 | the four header bytes are reversed in place; the connection closes when the length exceeds `MAX_TEXT - 5`; it stays open in a state the reader can go on from exactly when the length is from 0 to that, and with a negative read size exactly when the top bit is set |
| `MudFrames.ZeroHeaderStays` | src/comm.cc:730-798 | a header of four zeros passes the length check; after it the port takes nothing, delivers nothing and does not close |
| `MudFrames.NegativeHeaderStays` | src/comm.cc:730-793 | behind a header with the top bit set everything waiting is taken, the read size stays negative, and no message is ever delivered |
| `MudFrames.MudPort.TakeMessage` | src/comm.cc:800-812 | zero-terminates the text in range and hands out the bytes behind the header |
| `Chains.ChainEnds` | src/comm.cc:1595-1603 | in a finite acyclic graph every walk along the arrows ends within as many steps as there are arrows |
| `Chains.HeightStep` | src/comm.cc:1595-1603 | the distance to the end of the chain drops by one with every step: the measure of the guard walk and of message delivery |
| `SnoopGraph.WalkIsExact` | src/comm.cc:1592-1603 | the victim is met at or above the snooper if and only if the new edge would close a cycle: the guard refuses exactly those edges |
| `SnoopGraph.KeepsAcyclic` | src/comm.cc:1592-1617 | every edge the guard lets through keeps the graph acyclic, the previous snoop having been stopped |
| `SnoopGraph.StartedInjective` | src/comm.cc:1605-1617 | after stopping the old snoop, each object still snoops at most one user |
| `Snoop.Comm.NewSetSnoop` | src/comm.cc:1561-1618 | the outcome by the objects' own fields: done exactly if the snooper is not destructed and there is no victim, or one that is not destructed, interactive, and not at or above the snooper; an error exactly for a non-interactive victim; refused otherwise with nothing changed. Without a victim exactly the snooper's link and flag go; with one it snoops the victim and nobody else, and all other links but the one to the victim stay; acyclicity, injectivity and flags are kept |
| `Snoop.Comm.MeetsAbove` | src/comm.cc:1592-1603 | the guard walk terminates and says whether the victim is reached |
| `Snoop.Comm.StopSnoop` | src/comm.cc:1577-1590 | stopping removes exactly the snooper's edge and its flag |
| `Snoop.Comm.BeginRemove` | src/comm.cc:1256-1271 | a second removal is refused; otherwise the connection is closing |
| `Snoop.Comm.FinishRemove` | src/comm.cc:1294-1299 | removing a connection takes away the edge to it and the snooper's flag, and the connection itself; its own snooping of others stays |
| `Snoop.Comm.Destruct` | src/vm/internal/simulate.cc:940-948 | destructing an object that snoops stops its snooping first |
| `Snoop.Comm.QuerySnoop` | src/comm.cc:1630-1635 | the snooper recorded for a user, none for a non-interactive object |
| `Snoop.Comm.QuerySnooping` | src/comm.cc:1637-1648 | the inverse of `query_snoop`: the answer is v exactly when v is snooped by the object, and the fatal line is never reached |
| `Snoop.Comm.AddMessage` | src/comm.cc:547-605 | nothing is sent to an object that is destructed, not interactive, net-dead or closing; any other gets the text first, and the log grows by exactly what delivery up the snoop chain means; the recursion terminates by acyclicity |
| `Snoop.Comm.ReceiveSnoop` | src/comm.cc:1530-1546 | a percent sign and then the message are sent to the snooper |
| `Snoop.KthSnooper` | src/comm.cc:1541-1545 | the k-th snooper up the chain, everyone up to it reachable, gets exactly 2^k texts whose concatenation is 2^k - 1 percent signs and the message |
| `Snoop.OffTheChain` | src/comm.cc:547-605 | nobody off the chain above the addressee gets anything |
| `Snoop.RemovedValues` | src/comm.cc:1294-1299 | without an edge, the set of snoopers loses exactly that edge's one |
| `TickSpec.InsertSorted` | src/backend.cc:155-159 | insertion keeps the queue in tick order, first in first out among equal ticks |
| `TickSpec.PopShrinks` | src/backend.cc:112-141 | handling an event lowers the number of callbacks that can still happen, whatever it spawns and invalidates: why a tick ends |
| `TickSpec.DrainLeavesNoneDue` | src/backend.cc:107-142 | after a tick every queued event is for a later one |
| `Backend.BatchStep` | src/backend.cc:117-141 | handling a batch's first event equals popping the earliest event of the queue with the batch put back in front |
| `Backend.Scheduler.CallTickEvents` | src/backend.cc:107-142 | draining in batches gives the same state, the same events in the same order, as popping the earliest event one at a time |
| `Backend.Scheduler.HandleBatch` | src/backend.cc:135-140 | the batch loop leads to the same drained state as the queue it was taken from, with less left to do |
| `Backend.Scheduler.TakeDue` | src/backend.cc:118-131 | exactly the due events leave the queue, in order: those taken are due, those left are not |
| `Backend.Scheduler.AddGametickEvent` | src/backend.cc:155-159 | the event goes behind all events of the same or an earlier tick, valid, with its callback and for the tick that is its delay away |
| `Backend.Scheduler.OnGameTick` | src/backend.cc:144-146 | one tick: drain, then advance the clock |
| `Backend.Scheduler.ClearTickEvents` | src/backend.cc:186-196 | every pending event is cleared and counted |
| `TickRuns.EveryEventOnce` | src/backend.cc:107-196 | over any run from tick 0, every added event is in exactly one place, once: handled, pending or cleared; it is handled at exactly the tick it was added for, runs then if and only if no invalidation of it stands before in the log, and is never still pending after that tick |
| `TickTraces.AddedEventIsHandled` | src/backend.cc:107-159 | from any reachable state: an event added with delay d has, once the clock is past its tick and nothing was shut down, been handled exactly once, at that tick; it ran if and only if it had not been invalidated by then, and the log then goes on with exactly what its callback does |
| `TickTraces.OpsTrace` | src/backend.cc:135-138 | a callback adds and invalidates in its own order, events with ascending numbers at the current tick plus their delays |
| `TickTraces.ClockCounts` | src/backend.cc:144-146 | the clock of a run is the number of its ticks |
| `TickRuns.InvalidatedNeverRuns` | src/backend.cc:136-138 | an event invalidated before it is handled never runs, over any continuation |
| `TickRuns.DrainSound` | src/backend.cc:107-142 | a drain keeps the accounting, the due ticks and the run-if-valid property |
| `MacroTable.DefTable.LookupDefinition` | src/tools/preprocessor.hpp:548-556 | the position of the name in its chain, or none; tombstones are found too |
| `MacroTable.DefTable.LookupDefine` | src/tools/preprocessor.hpp:558-565 | defined exactly when the name is in the plain map the chains stand for |
| `MacroTable.DefTable.AddDefine` | src/tools/preprocessor.hpp:567-622 | on tombstones, predefined names, redefinitions and new names alike, the map changes by exactly that macro, or an error changes nothing (the body it gets is `MacroTable.DefinesBody`) |
| `MacroTable.DefTable.Undef` | src/tools/preprocessor.hpp:1076-1088 | a tombstone, made on the spot for an unknown name: the plain map loses exactly that name |
| `MacroTable.DefTable.AnswersAsMap` | src/tools/preprocessor.hpp:548-565 | what the chains hold for a name, tombstones left out, is what the plain map holds |
| `MacroTable.FindAfterUpdate` | src/tools/preprocessor.hpp:548-556 | replacing one chain entry by one of the same name changes that lookup only |
| `MacroTable.MeantUpdate` | src/tools/preprocessor.hpp:558-565 | entries with tombstones stand for a plain map that changes at one name only |
| `MacroTable.TrimIdempotent` | src/tools/preprocessor.hpp:571-574 | trimming a body again changes nothing |
| `MacroTable.TrimIs` | src/tools/preprocessor.hpp:571-574 | exactly the blanks before and behind a body are trimmed: spaces, tabs, line, form and vertical feeds and carriage returns |
| `MacroTable.DefinesBody` | src/tools/preprocessor.hpp:567-622 | a definition stores the body between the blanks as it is, or is an error: for two number signs at either end, or a predefined name |
| `MacroTable.HashCheck` | src/tools/preprocessor.hpp:575-582 | where the source tests the `##` error on the untrimmed text, it means the trimmed one |
| `Conditionals.FollowsTheTree` | src/tools/preprocessor.hpp:1013-1088 | for every program tree, running its lines (if-stack, skip counter, push-back) gives exactly the live lines and the macros of the recursive meaning, with an empty stack, or an error exactly where the meaning has one |
| `Conditionals.SkipsTree` | src/tools/preprocessor.hpp:481-525 | skipping passes a nested conditional as a whole, at every nest depth, whatever is in it |
| `Conditionals.SkipsAll` | src/tools/preprocessor.hpp:481-525 | and so a whole list of trees |
| `Conditionals.FollowsTree` | src/tools/preprocessor.hpp:1013-1088 | one tree in front of any rest of input and under any stack leaves rest and stack untouched |
| `Conditionals.TakesAlt` | src/tools/preprocessor.hpp:876-884 | a false condition skips to its own `else` or `endif`, which is pushed back, and the other branch is followed |
| `Conditionals.PassesTail` | src/tools/preprocessor.hpp:653-674 | after a true branch the `else` part is skipped and the `endif` closes the condition |
| `Conditionals.LaterElsesAreDead` | src/tools/preprocessor.hpp:653-663 | a condition with several `else` parts is no error: whether it holds or not, all but the first of them are skipped |
| `Conditionals.FollowsTheDefinition` | src/tools/preprocessor.hpp:1064-1088 | behind a definition `#ifdef` follows its first branch and `#ifndef` the other, behind `#undef` the other way round |
| `Conditionals.MeaningAppend` | src/tools/preprocessor.hpp:1013-1088 | a program may be read in two parts |
| `Preprocessor.Preprocessor.SkipTo` | src/tools/preprocessor.hpp:481-525 | the skip loop with its nest counter ends at the matching line, which is pushed back, or fails at the end of input |
| `Preprocessor.Preprocessor.HandleCond` | src/tools/preprocessor.hpp:876-884 | skips on false, then pushes the state that says what may follow |
| `Preprocessor.Preprocessor.HandleElse` | src/tools/preprocessor.hpp:653-663 | an expected `else` is passed, any other skips to the end of the condition, one without a condition is an error |
| `Preprocessor.Preprocessor.HandleEndIf` | src/tools/preprocessor.hpp:665-674 | pops the stack, or is an error |
| `Preprocessor.Preprocessor.NextLine` | src/tools/preprocessor.hpp:1013-1018 | the pushed-back line comes first |
| `Preprocessor.Preprocessor.Process` | src/tools/preprocessor.hpp:1056-1088 | one live line |
| `Preprocessor.Preprocessor.Preprocess` | src/tools/preprocessor.hpp:1008-1197 | the loop over all lines, and the error for a condition left open |
| `Preprocessor.PreprocessTrees` | src/tools/preprocessor.hpp:1008-1197 | on the lines of any program tree the imperative loop ends exactly as the tree means: the live lines as output, an empty if-stack, and hash chains that answer, for every name, as the plain map of the live directives |
| `Preprocessor.DefinedAfter` | src/tools/preprocessor.hpp:558-565 | asked after the run, the table says of a name that it is defined exactly if the live directives leave it so |
| `Preprocessor.DefinedLast` | src/tools/preprocessor.hpp:567-622 | behind any program that is no error, the chains answer for a name defined last with exactly its body between the blanks, and for all others as before |
| `JsonRoundTrip.RoundTrip` | testsuite/std/json.c:459-558 | every nested value of integers, strings, arrays and mappings with string keys comes back from every text it may be printed as, each mapping in it walked in an order of its own, and the parser consumes exactly the printed text |
| `JsonRoundTrip.ValueParses` | testsuite/std/json.c:459-518 | the same inside any text, in front of a comma, a closing bracket or the end of the text |
| `JsonSpaces.SpacedRoundTrip` | testsuite/std/json.c:141-269 | every value that comes back from its printed texts comes back from these with spaces, tabs, line feeds, form feeds and carriage returns in front and behind, after commas, colons and opening brackets, and before commas, colons and closing brackets |
| `JsonSpaces.SpacedParses` | testsuite/std/json.c:459-518 | the same inside any text: the next character behind the value that is no blank is the one behind its text |
| `JsonSpaces.PrintedIsSpaced` | testsuite/std/json.c:560-644 | a printed text is one of these without blanks: brackets, commas, colons and quotes are where they should be |
| `JsonSpec.Words` | testsuite/std/json.c:493-513 | true reads as 1, false and null as 0 |
| `JsonSpec.Literals` | testsuite/std/json.c:371-457 | some literals with points and exponents, and some that are errors |
| `JsonExact.RoundTripExact` | testsuite/std/json.c:228-369 | for values of numbers, NUL-free strings, arrays, and mappings in which every string survives: every text comes back as the value if and only if every string in it survives |
| `JsonExact.StringExact` | testsuite/std/json.c:271-369 | inside any text, a printed string is read as itself only if it survives |
| `JsonExact.FinalSlashDiffers` | testsuite/std/json.c:286-309 | a string that ends in a backslash swallows its closing quote, and what is read for it then differs from it |
| `JsonRoundTrip.StringRoundTrip` | testsuite/std/json.c:271-369 | of all strings without NUL: the printed string parses back to itself if and only if it holds no backslash, or something else in it is escaped (a quote, control character or ESC), no backslash stands before one of b f n r t u, and the last character is not a backslash |
| `JsonRoundTrip.StringSurvives` | testsuite/std/json.c:271-369 | every surviving string, every backslash-free one among them, comes back and leaves the cursor behind its closing quote |
| `JsonRoundTrip.FinalSlashFails` | testsuite/std/json.c:565-573 | a final backslash swallows the closing quote: the text of such a string never parses |
| `JsonRoundTrip.SlashUFails` | testsuite/std/json.c:324-362 | no string with a backslash before a u comes back, whatever stands behind the u and elsewhere in it |
| `JsonLengths.SlashUShrinks` | testsuite/std/json.c:311-367 | undone by the passes, the body of a string with a backslash before a u is an error or shorter than the string |
| `JsonLengths.Shrinks` | testsuite/std/json.c:325-361 | putting one character in the place of an escape, anywhere, does not raise the bound on the final length, though it may join backslashes or begin a new escape |
| `JsonLengths.PassShrinks` | testsuite/std/json.c:324-362 | nor does the whole loop, and only index 0 can still hold an escape after it |
| `JsonLengths.StageBound` | testsuite/std/json.c:565-587 | before the loop that bound is at most the length of the string, and four less if a backslash stands before a u |
| `JsonRoundTrip.NumberParses` | testsuite/std/json.c:371-457 | the decimal text of every integer parses to it, zero and negative numbers included, in front of a comma, a bracket or the end |
| `JsonStrings.LetterPass` | testsuite/std/json.c:314-323 | each whole-string replacement of a letter escape undoes exactly the tokens of its own character |
| `JsonStrings.QuotePass` | testsuite/std/json.c:312-313 | and the one of quotes |
| `JsonStrings.SolidusPass` | testsuite/std/json.c:363-364 | and the one of solidus |
| `JsonStrings.SlashPass` | testsuite/std/json.c:365-366 | and the final one of doubled backslashes |
| `JsonEscapes.UnicodeLoop` | testsuite/std/json.c:324-362 | the loop over unicode escapes, which starts over after each one, turns exactly the escapes of ESC back |
| `JsonEscapes.UnescapeBody` | testsuite/std/json.c:311-367 | all passes in their order turn the printed body into the string the source's passes really make of it, which is the string itself where no backslash misleads them |
| `JsonEscapes.HalvesBeforeQuotes` | testsuite/std/json.c:565-573 | doubling all backslashes and halving those before quotes leaves quotes escaped and other backslashes doubled, except for a final one |
| `JsonEscapes.ControlPasses` | testsuite/std/json.c:574-585 | the control-character passes do not interfere with each other |
| `JsonEscapes.EncodeStringIs` | testsuite/std/json.c:565-587 | the sequential encoder prints a quote, the token of each character, and a quote |
| `JsonEscapes.OneCharacter` | testsuite/std/json.c:565-587 | the escape of every single character, as in section 7 of RFC 8259 |
| `JsonEscapes.HexDigits` | testsuite/std/json.c:333-334 | the hexadecimal digits in either case |
| `JsonEscapes.SurrogatePair` | testsuite/std/json.c:341-359 | the example of section 7 of RFC 8259: two escapes that make one character |
| `Json.UndoEscapes` | testsuite/std/json.c:311-367 | the guarded replacements in order equal the unguarded ones |
| `Json.PrintString` | testsuite/std/json.c:565-587 | the guarded replacements of the printer equal the unguarded ones |
| `Json.Print` | testsuite/std/json.c:560-644 | the printer with its running separator, walking each mapping in whatever order, prints one of the texts of the value |
| `Json.Decode` | testsuite/std/json.c:520-558 | value, surrounding blanks and end of data, or an error (on texts with blanks between the tokens it is `JsonSpaces.SpacedRoundTrip` that says what comes out) |
| `Json.Parse.ParseString` | testsuite/std/json.c:271-369 | the scanner with its escape state finds the closing quote; the cursor ends behind it |
| `Json.Parse.ParseNumber` | testsuite/std/json.c:371-457 | the literal's end, its errors and its value, as the recursive meaning says |
| `Json.Parse.ParseValue` | testsuite/std/json.c:459-518 | the cursor advances exactly over one value |
| `Json.Parse.ParseItems` | testsuite/std/json.c:237-268 | the loop over array elements, with its errors |
| `Json.Parse.ParseFields` | testsuite/std/json.c:151-225 | the loop over object fields, later equal keys winning, with its errors |
| `Containment.AttachUnder` | run/feature/move.c:16-23 | who is under whom after an object is put into another: exactly what was in it joins everything above the destination |
| `Containment.AttachLoad` | run/feature/move.c:84-87 | the load of every object after an attachment: the whole tree's weight is added from the destination upwards, nowhere else |
| `Encumbrance.DetachLoad` | run/feature/move.c:84-87 | and after a detachment |
| `Encumbrance.MovedLoads` | run/feature/move.c:74-87 | a move changes the load of exactly the old and the new chain by the moved object's weight and load |
| `Encumbrance.WeightChange` | run/feature/move.c:32-40 | a new weight changes the load of exactly the containers above |
| `Encumbrance.Thing.AddEncumbrance` | run/feature/move.c:16-23 | the object and every container above it, and nothing else, gets the weight added |
| `Encumbrance.Thing.SetWeight` | run/feature/move.c:32-40 | every object's `encumb` stays the total weight of everything transitively inside it |
| `Encumbrance.Thing.Move` | run/feature/move.c:74-87 | for every destination: refused without a change when one that does not contain the object would go past its maximum; otherwise placed with every `encumb` the true load, a new destination within its maximum; or, for a destination inside the object, an error that leaves the object where it is and its load added once more to all from the destination up to the object, so the books are right afterwards only for a load of 0 |
| `Encumbrance.Thing.Carry` | run/feature/move.c:84-87 | the same without the check of the maximum |
| `Encumbrance.Thing.Remove` | run/feature/move.c:123-146 | takes only the object's own weight off its containers: afterwards their `encumb` is what would be in them without the object, plus what is still in the object |
| `Encumbrance.RemovedBalance` | run/feature/move.c:140-143 | after a removal the ledger agrees everywhere above if and only if nothing weighed inside the removed object |
| `Encumbrance.RemovedEmpty` | run/feature/move.c:140-143 | removing an empty object leaves the ledger of all others balanced |
| `Equipment.BalanceAdded` | run/feature/equip.c:33-42 | adding an item's bonuses key by key keeps `apply` equal to base plus the sum over equipped items |
| `Equipment.BalanceRemoved` | run/feature/equip.c:132-136 | and so does taking them off |
| `Equipment.Character.Wear` | run/feature/equip.c:7-44 | the slot, the mark and the bonuses change together; refused without armor value or with the slot taken; recognised when already equipped |
| `Equipment.Character.Wield` | run/feature/equip.c:46-107 | every hand rule, the switch of the old weapon to the other hand included; slots, marks and bonuses agree afterwards |
| `Equipment.Character.HandsRule` | run/feature/equip.c:63-98 | a two-handed item needs both hands and no shield; any other the first hand, or the second one with no shield, for itself or for the old weapon |
| `Equipment.MakesRoom` | run/feature/equip.c:81-93 | the old weapon stays for a secondary item, goes to the other hand for any other, and is put away if it needs both |
| `Equipment.Character.SwitchHands` | run/feature/equip.c:85-89 | the old weapon is put away, the new one takes its hand, and the old one is wielded again in the other, or stays put away when it needs both hands |
| `Equipment.Character.Unequip` | run/feature/equip.c:109-140 | the item leaves its slot, its bonuses and its mark; refused when not equipped |
| `Equipment.Character.AddBonuses` | run/feature/equip.c:100-102 | each key grows by the item's bonus, missing keys starting at zero |
| `Equipment.Character.RemoveBonuses` | run/feature/equip.c:132-136 | each key shrinks by the item's bonus |
| `Equipment.Leave` | run/feature/move.c:54-56 | an equipped item leaves its owner, for another one, for none, or to come back to the same one, only after its bonuses are off, slot and mark cleared |
| `Equipment.Transfer` | run/feature/move.c:54-87 | both owners' books agree after the item has changed hands |
| `Paths.ResolveComponents` | testsuite/single/simul_efun.c:193-215 | the two-index loop leaves, as the entries not zeroed, exactly the stack reduction of the components, every access in range |
| `Paths.ClearBelow` | testsuite/single/simul_efun.c:200-205 | the inner loop zeroes the last entry still standing, if there is one |
| `Paths.ReducedHasNoDots` | testsuite/single/simul_efun.c:198-214 | no "." or ".." is left |
| `Paths.ReduceIdempotent` | testsuite/single/simul_efun.c:198-214 | normalising again changes nothing |
| `Paths.ReduceResumes` | testsuite/single/simul_efun.c:198-214 | a normalised front part may stand for the front part |
| `Paths.ReductionLaws` | testsuite/single/simul_efun.c:198-214 | names stay, "." goes, ".." goes with the name before it, or alone at the root, anywhere in a path |
| `Paths.GetPath` | run/adm/daemons/ftpd.bad.c:1982-2023 | the slicing loop ends with "/" exactly when some ".." occurs at the root, and otherwise with the same reduction |
| `Paths.CleanedReducesAlike` | run/adm/daemons/ftpd.bad.c:1982-1982 | on non-empty components, removing "." first changes neither the reduction nor whether some ".." climbs out of the root |
| `Paths.NormaliseBoth` | run/adm/daemons/ftpd.bad.c:1982-2023 | on the same components the two normalisers agree, unless some ".." climbs out of the root, where one ignores it and the other answers the root |
| `Base64.RoundTrip` | src/ofile.cc:24-96 | decoding what was encoded gives every byte sequence back |
| `Base64.Alphabet` | src/ofile.cc:17-20 | the 64 characters, one by one, as in section 4 of RFC 4648 |
| `Base64.TestVectors` | src/ofile.cc:24-58 | three of the test vectors of section 10 of RFC 4648, with no, one and two padding characters |
| `Base64.SameBits` | src/ofile.cc:34-37 | the masks and shifts cut a group's 24 bits into four times six from the left, as in section 4 of RFC 4648 |
| `Base64.OctetsOfSextets` | src/ofile.cc:74-76 | joining the four values gives the three octets, for all 2^24 of them |
| `Base64.ReadsShort` | src/ofile.cc:83-93 | a short final group with its padding reads as exactly the first octets of the group whose missing places are fillers |
| `Base64.FillersDoNotMatter` | src/ofile.cc:88-92 | the first octet does not depend on the last two places, nor the first two on the last: the fillers there never reach the output |
| `Base64.EncodeBytes` | src/ofile.cc:24-58 | the loop over the three-byte array, zero filling and padding included, gives the encoding |
| `Base64.DecodeString` | src/ofile.cc:60-96 | the loop over the four-character array, converted in place, gives the decoding; it stops at '=' and at any foreign character |
| `Svalues.RoundTrip` | src/ofile.cc:143-257 | every tree of numbers, floats, strings, arrays, classes and mappings with number or string keys is read back from any tree it may be written as, whatever order each mapping's buckets are walked in |
| `Svalues.WrittenOnce` | src/ofile.cc:143-191 | no two values share a written tree |
| `Svalues.AllEntered` | src/ofile.cc:225-253 | the pairs, entered in any order with each key once, make the mapping again |
| `Svalues.NamesReadBack` | src/ofile.cc:98-141 | the two name tables are inverse to each other |
| `Svalues.Tags` | src/ofile.cc:98-118 | the tag that stands in the tree of each kind of value, and the value beside it |
| `Svalues.ToJson` | src/ofile.cc:143-191 | the writer, walking each mapping in whatever order, gives one of the trees the value may be written as |
| `Svalues.ReadJson` | src/ofile.cc:193-257 | the reader's value, or an exception exactly where a tag, a value's kind or an entry's part is wrong at any depth |
| `ChineseNumber.ReadsBack` | run/adm/daemons/chinesed.c:43-108 | a reader that splits at the last of the largest unit gets every integer back from its text |
| `ChineseNumber.Injective` | run/adm/daemons/chinesed.c:43-108 | no two integers print alike |
| `ChineseNumber.Numerals` | run/adm/daemons/chinesed.c:43-108 | some numbers, with every digit and every unit among them |
| `ChineseNumber.NumberReads` | run/adm/daemons/chinesed.c:47-107 | below each unit the text uses only smaller units, begins with 零 only for zero, and reads back |
| `ChineseNumber.Shape` | run/adm/daemons/chinesed.c:49-107 | every branch prints the quotient, the unit, and the remainder with an optional 零 |
| `ChineseNumber.SplitReads` | run/adm/daemons/chinesed.c:80-107 | the last of the largest unit separates head and remainder, across nested groups |
| `ChineseNumber.EndsUnlessLeast` | run/adm/daemons/chinesed.c:45-46 | on 64-bit numbers the recursion ends, with the same text, if and only if the number is not the least one, which is its own negation |

## Left out

- Sockets, event loop, telnet negotiation, websockets, TLS and character set conversion: a read is "some bytes are waiting", sending is an entry in a log.
- The ASCII and BINARY port types, read errors, `input_to`, `get_char`, the editor, MXP, prompts, echo and the `!` escape: plumbing around LPC calls.
- InputStream.DeliversTheStream: speaks of chunks that fit behind the space check, without NUL and erase bytes, in line mode; what happens to chunks that do not fit is ReadStores, and erase bytes are in DeliversWhatIsTyped, IndicesInRange and MissesExactly.
- InputStream.LosesExactlyTheLinesHit: speaks of streams in which `\n` is the only terminator.
- LineEditing.DeliversWhatIsTyped: erase bytes take back bytes of their own arrival; what those that reach back further do to the window is ReachesBack, but it is not carried over runs, where they may take back the end of a line that is announced already.
- Bytes are unsigned in the model of the buffer; the source's plain `char` is only compared with terminators, erase bytes and NUL there.
- The text of a MUD-port message is handed out as bytes: `restore_svalue` is not part of this model.
- Snoop.Comm.AddMessage: shadows, `RECEIVE_SNOOP` on, and messages to non-interactive objects on standard error are not modelled; `NET_DEAD` counts as closing.
- Snoop.Comm.FinishRemove: the rest of `remove_interactive` (buffers, telnet and TLS state, notifications) is not modelled; between the two halves any other operation may happen.
- Events are numbered records, not heap objects: deleting a handled event is not modelled, so neither is a later use of its pointer; delays are not negative; a callback is a finite tree of additions and invalidations.
- TickRuns.EveryEventOnce: 64-bit tick rollover is not modelled, as the source's own comment excludes it.
- Wall-clock events, load averages and the swap-out of objects.
- MacroTable.DefTable.LookupDefinition: a chain is a sequence of entries, newest first, not linked nodes in memory.
- Preprocessor.Preprocessor.Process: lines come with their directive word recognised; `#if` and `#elif` expressions (an error in the live part, counted for nesting and for stopping in the skipped part), function-like macros, macro expansion, `#include`, `#pragma`, comments, blanks after `#` and line numbers are left out.
- JsonRoundTrip.RoundTrip: integers are unbounded; printing of floats, null values and circular values are left out; strings hold no NUL and are such that StringRoundTrip gives them back.
- JsonRoundTrip.StringRoundTrip: code points that Unicode has not assigned, for which the driver's formatting raises an error, count as characters when an escape is undone; such a string does not come back either way.
- JsonExact.RoundTripExact: in a mapping that holds a string which does not survive, a later field may be read under a key already read, so whether such a value can come back is left open.
- MudFrames.MudPort.GetUserData: does not say what a read does that does not fit, which only happens behind a header with the top bit set.
- Json.Decode: the UTF-8 step is the identity, errors are one value without their text, and line and column counters are not kept.
- Encumbrance.Thing.Move: messages, `look`, destination by name, and objects that vanish during the move are left out.
- Encumbrance.Thing.Remove: taking the object out of its environment is the driver's part and not in the method (RemovedBalance and RemovedEmpty speak of the environments without it); the caller and owner checks and `no_clean_up` are left out.
- `m_move` in `run/feature/multi.c`, which by design moves without encumbrance.
- Equipment.Character.Wield: item properties do not change while the item is equipped, bonuses are integers, and keys hold no '/'; `is_character`, `reset_action` and the messages are left out.
- Equipment.Leave: of `move` only what concerns equipment; the encumbrance part is in Encumbrance.
- Paths.ResolveComponents: works on the exploded components; the prefixes for users and the current directory, and the joining into a string, are left out.
- Paths.GetPath: None stands for the early "/"; anonymous users, for whom another directory is returned, are left out.
- Svalues.RoundTrip: buffers, objects and other types are one foreign value (the length of a buffer node is taken from the JSON node, not from its data); the text form of JSON and of object files, and allocation, are left out.
- Svalues.ReadJson: a mapping with a key that is neither a number nor a string is a foreign value; which exception is raised is not modelled.
- ChineseNumber.EndsUnlessLeast: running out of stack is modelled as not having ended after any number of negations.
