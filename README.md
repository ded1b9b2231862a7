# Crestron SIMPL# TCP demo and timer test, modelled in Dafny

This project models two programs.

The first is the line-oriented TCP server of `Example4`. Each connected client gets a session. The session:

- sends a welcome line and a prompt;
- decodes each read as ASCII and trims it;
- splits the text on spaces and takes the first word, upper-cased, as the command: `BYE`, `HELP` or `HELLO <name>`, anything else being unknown;
- answers accordingly.

`HELLO` sends a greeting to every other client in the shared client list. A session that ends normally removes its client from that list.

The second is the `Test1` timer client of `ThreadTest`. It is a small state machine. `Initialize` stores a name and a period. `Start` and `Stop` switch counting on and off under guards. Each timer tick (`DoWork`) advances a 64-bit counter while running and raises an event with the message `"<name>: counting <counter>"`.

There are three modules:

- `Text` (`text.dfy`) holds the .NET string and encoding behaviour the server depends on:
  - `Encoding.ASCII` decoding and encoding, where anything outside ASCII becomes `?`;
  - `String.Trim`, with the `Char.IsWhiteSpace` set of characters;
  - `String.Split(' ')`, which always returns at least one word;
  - upper-casing;
  - decimal formatting of integers.
- `Example4` (`example4.dfy`) gives the answer to one read as a pure decision table (`HandleRead`). It folds the answers of a sequence of reads into a session transcript (`Conversation`). A class `ControlSystem` holds the shared client list and a log of every stream write. Its `ClientSession` method runs the read loop and is proved to produce exactly that transcript.
- `ThreadTest` (`thread_test.dfy`) has the pure step functions of `Test1` and lemmas about runs of calls. It also has the class `Test1`, whose methods update the fields in place and are proved to follow the step functions.

Modelling choices:

- A client is an identity (`ClientId`), and a write to a client's stream is a `Delivery` appended to `ControlSystem.written`.
- The reads of a session are given as a sequence of byte chunks, each at most 256 bytes, the size of the receive buffer.
- The timer is an external source of `DoWork` calls. Whether a `TimerEvent` handler is subscribed is a parameter of `DoWork`, and the event it raises is returned rather than delivered.
- On an object never initialized, `Start` while not running sets running and resets the counter, then throws on the null `_timer`. `Stop` while running likewise clears running, then throws. `Start` while running and `Stop` while stopped do nothing and never throw. `Test1.Start` and `Test1.Stop` report the throw as `failed` (`StartFails`, `StopFails`).
- In the pure model, such a throw ends a `Run`.
- A `_name` that was never assigned is null in C#. `String.Format` renders null as the empty text, so the model starts with the name `""`.

Two behaviours of the C# code, both modelled as written:

- `HELLO` without a name does not greet with an empty name. The broadcast loop indexes `words[1]` for the first client other than the sender. That throws, the exception ends the session, and `_clients.Remove` is skipped, so the crashed client stays in the list. When no other client is connected, the loop writes nothing and the exception is never raised. The `HELP` text advertises the name as optional (`HELLO [name]`).
- An empty read (`length == 0`) writes nothing at all, not even the prompt.

## Model

| member | source | states |
|---|---|---|
| Text.Decode | Example4/ControlSystem.cs:131 | `Encoding.ASCII.GetString` gives one character per byte, and the result is pure ASCII. |
| Text.Encode | Example4/ControlSystem.cs:223 | `Encoding.ASCII.GetBytes` gives one byte per character. |
| Text.DecodeEncode | Example4/ControlSystem.cs:223 | Encoding then decoding gives back the text exactly when the text is ASCII. |
| Text.EncodeDecode | Example4/ControlSystem.cs:131 | Decoding then encoding gives back the bytes exactly when every byte is below 128. |
| Text.Trim | Example4/ControlSystem.cs:131 | The result of `Trim` neither starts nor ends with white space and is no longer than the input. |
| Text.TrimIsTheWhiteSpaceFreeCore | Example4/ControlSystem.cs:131 | If a slice of the text has no white space at either end and only white space outside it, `Trim` returns exactly that slice. A text that is all white space trims to empty. |
| Text.TrimIdempotent | Example4/ControlSystem.cs:131 | Trimming twice is the same as trimming once. |
| Text.Upper | Example4/ControlSystem.cs:160 | `ToUpper` keeps the length. |
| Text.UpperMatchesIgnoringCase | Example4/ControlSystem.cs:160-176 | For an upper-case keyword, a word upper-cases to the keyword exactly when it spells the keyword in any mixture of cases. |
| Text.Split | Example4/ControlSystem.cs:132 | `Split(' ')`: at least one word; no word holds the separator; a single word exactly when the text has no separator, and then it is the text itself; the first word is a prefix of the text. |
| Text.JoinSplit | Example4/ControlSystem.cs:132 | Joining the words of a split with the separator gives back the text. |
| Text.SplitAtFirstSeparator | Example4/ControlSystem.cs:132 | A separator-free word, a separator and more text split into that word followed by the split of the rest. |
| Text.SplitJoin | Example4/ControlSystem.cs:132 | Splitting the join of separator-free words gives back the words. |
| Text.NatDigits | ThreadTest/Test1.cs:69 | The decimal rendering of a natural number is a non-empty string of digits, and it starts with 0 only when it is "0", so it has no leading zero. |
| Text.NatDigitsValue | ThreadTest/Test1.cs:69 | The digits denote the number rendered. |
| Text.FormatInt | ThreadTest/Test1.cs:69 | Defines the `{1}` rendering of a long: a "-" before the digits of a negative value. It has no contract of its own. `ValueOfFormatInt`, `FormatIntIsCanonical` and `FormatIntOfValue` pin it down. |
| Text.ValueOfFormatInt | ThreadTest/Test1.cs:69 | The `{1}` rendering of any integer, a sign included, denotes that integer. |
| Text.FormatIntIsCanonical | ThreadTest/Test1.cs:69 | The rendering is canonical: digits with no leading zero, and a "-" only before a non-zero value. |
| Text.NatDigitsOfValue | ThreadTest/Test1.cs:69 | Rendering the value of canonical digits gives back those digits. |
| Text.FormatIntOfValue | ThreadTest/Test1.cs:69 | Every canonical numeral is the rendering of its value. So, with `ValueOfFormatInt`, the rendering is the one canonical numeral that denotes the integer. |
| Example4.Framed | Example4/ControlSystem.cs:222-223 | Defines the text `SendMessage` encodes: the message, then CRLF when `newline` is set. It has no contract of its own. `SendMessageFraming` states its bytes. |
| Example4.Send | Example4/ControlSystem.cs:220-224 | Defines one stream write: the recipient and the ASCII bytes of the framed message. It has no contract of its own. `SendMessageFraming` pins it down, and `ControlSystem.SendMessage` is proved to perform it. |
| Example4.Opening | Example4/ControlSystem.cs:115-116 | Defines the first two writes of a session: the welcome line with CRLF, then the prompt without. It has no contract of its own. `ControlSystem.ClientSession` is proved to write it first. |
| Example4.SendMessageFraming | Example4/ControlSystem.cs:220-224 | The bytes written decode to the message plus CRLF when `newline` is set, and to the message alone otherwise. Their length is the message's length + 2, or + 0. |
| Example4.Others | Example4/ControlSystem.cs:178-180 | The recipients of the HELLO loop are exactly the listed clients other than the sender. |
| Example4.OthersCount | Example4/ControlSystem.cs:178-184 | Each client other than the sender is greeted as often as it appears in the list, and the sender never. |
| Example4.OthersSnoc | Example4/ControlSystem.cs:178-180 | Adding a client to the list adds it to the end of the recipients, unless it is the sender. |
| Example4.RemoveFirst | Example4/ControlSystem.cs:212 | `List.Remove` leaves a list without the client unchanged, and otherwise shortens it by one. |
| Example4.FirstIndex | Example4/ControlSystem.cs:212 | The position of a listed client's first occurrence: the client is there, and at no earlier position. |
| Example4.RemoveFirstKeepsOrder | Example4/ControlSystem.cs:212 | Remove drops exactly the first occurrence and keeps every other entry in its order. That order is the order of later HELLO broadcasts. |
| Example4.RemoveFirstMultiset | Example4/ControlSystem.cs:212 | Remove takes away exactly one occurrence of the client and keeps every other entry. |
| Example4.RemoveFirstNoDuplicates | Example4/ControlSystem.cs:212 | In a duplicate-free list, Remove takes the client out completely, keeps every other client, and the list stays duplicate-free. |
| Example4.Greetings | Example4/ControlSystem.cs:178-185 | The HELLO broadcast writes one greeting per recipient. |
| Example4.CommandOf | Example4/ControlSystem.cs:160-176 | Defines the command as the first word upper-cased and compared with "BYE", "HELP" and "HELLO". It has no contract of its own. `CommandSpelling` and `ByeInAnyCase` pin it down. |
| Example4.Answer | Example4/ControlSystem.cs:157-191 | Defines the decision table for a text of 3 or more characters: BYE, HELP, HELLO with or without a name, anything else. It has no contract of its own. `AnswerIgnoresCommandCase`, `ByeReply`, `HelpReplyLines`, `HelloReply`, `HelloWithoutName` and `UnknownReply` pin it down, and `ControlSystem.Respond` is proved to follow it. |
| Example4.Dispatch | Example4/ControlSystem.cs:134-146 | Defines the length test: a text shorter than 3 characters gets only the prompt, and any other text goes to `Answer`. It has no contract of its own. `ShortInputOnlyPrompts` and `PromptUnlessBye` pin it down. |
| Example4.HandleRead | Example4/ControlSystem.cs:126-196 | Defines everything one read writes, and whether the loop goes on. An empty read does nothing. Otherwise the bytes are decoded, trimmed and dispatched. It has no contract of its own. The per-command lemmas and `OnlyHelloReachesOthers` pin it down, and `ControlSystem.HandleChunk` is proved to follow it. |
| Example4.CommandSpelling | Example4/ControlSystem.cs:160-176 | The command is BYE, HELP or HELLO exactly when the first word spells it in any case. |
| Example4.ByeInAnyCase | Example4/ControlSystem.cs:160-162 | `bye`, `Bye` and `BYE` are the same command, BYE. |
| Example4.AnswerIgnoresCommandCase | Example4/ControlSystem.cs:157-190 | Word lists that differ only in the case of the first word get the same answer. |
| Example4.HandleReadIgnoresCommandCase | Example4/ControlSystem.cs:126-196 | Two reads whose words differ only in the case of the first word get the same writes and the same outcome. |
| Example4.ShortInputOnlyPrompts | Example4/ControlSystem.cs:134-144 | A non-empty read whose trimmed text is shorter than 3 characters writes only the prompt, and the loop goes on. |
| Example4.ByeReply | Example4/ControlSystem.cs:162-165 | BYE writes exactly "Bye!" plus CRLF to the sender, ends the read loop and writes no prompt. |
| Example4.HelpReplyLines | Example4/ControlSystem.cs:169-175 | HELP writes the four help lines in order to the sender, each followed by CRLF, then the prompt, and the loop goes on. |
| Example4.UnknownReply | Example4/ControlSystem.cs:187-190 | Any other command of 3 or more characters writes "What are you yammering about?" plus CRLF, then the prompt. |
| Example4.Recipients | Example4/ControlSystem.cs:178-185 | There is one recipient per write. |
| Example4.HelloReply | Example4/ControlSystem.cs:176-185 | HELLO with a name writes "** Greetings from <name>! **" plus CRLF to each other client in list order, then the prompt to the sender, and the loop goes on. The recipients are the list with the sender counted exactly once. |
| Example4.HelloWithoutName | Example4/ControlSystem.cs:176-185 | HELLO without a name fails exactly when another client is in the list, and then writes nothing. Otherwise it writes only the prompt. |
| Example4.PromptUnlessBye | Example4/ControlSystem.cs:128-196 | Every read that is answered without failing, other than BYE, ends its writes with the prompt. The loop stops exactly on BYE. A failed read writes nothing. |
| Example4.OnlyHelloReachesOthers | Example4/ControlSystem.cs:157-196 | A write to anyone but the sender comes only from HELLO with a name, goes to a listed client, and is the greeting. |
| Example4.Replies | Example4/ControlSystem.cs:121-204 | A session answers every read. |
| Example4.Play | Example4/ControlSystem.cs:121-204 | Defines the read loop over given replies: it continues, stops on BYE (Quit) or ends on an exception (Crashed), and runs out as Disconnected. It has no contract of its own. `PlayStep`, `PlayAppend` and `PlayStopsAtTheEnd` pin it down. |
| Example4.Conversation | Example4/ControlSystem.cs:121-204 | Defines the transcript of a session: its replies to the reads, played in order. It has no contract of its own. `NothingAfterTheEnd` and `ConversationAppend` pin it down, and `ControlSystem.ClientSession` is proved to produce it. |
| Example4.ClientsAfter | Example4/ControlSystem.cs:207-212 | Defines the client list after a session: Remove applied, unless the session crashed and skipped it. It has no contract of its own. `SessionEndRemovesClient` pins it down. |
| Example4.PlayStopsAtTheEnd | Example4/ControlSystem.cs:162-165 | Once a reply has ended the loop (BYE or an exception), later replies add nothing. |
| Example4.PlayAppend | Example4/ControlSystem.cs:121-204 | While the loop goes on, the writes of later replies follow the earlier ones. |
| Example4.PlayStep | Example4/ControlSystem.cs:121-204 | One turn of the read loop: the reply's writes, then the rest of the session unless the reply ended it. |
| Example4.RepliesAppend | Example4/ControlSystem.cs:121-204 | Answering more reads extends the answers. |
| Example4.NothingAfterTheEnd | Example4/ControlSystem.cs:162-165 | Reads after BYE or a crash are never looked at. |
| Example4.ConversationAppend | Example4/ControlSystem.cs:121-204 | A session still reading goes on exactly like a fresh session on the later reads. |
| Example4.SessionEndRemovesClient | Example4/ControlSystem.cs:207-212 | A session that ends normally takes its client out of a duplicate-free list and keeps the rest. |
| Example4.ControlSystem.constructor | Example4/ControlSystem.cs:39 | InitializeSystem starts with an empty client list, and nothing has been written. |
| Example4.ControlSystem.Accept | Example4/ControlSystem.cs:82-83 | An accepted connection is appended to the client list, and the list stays duplicate-free. |
| Example4.ControlSystem.SendMessage | Example4/ControlSystem.cs:220-225 | One write, to the given client, of the framed message's ASCII bytes. |
| Example4.ControlSystem.Greet | Example4/ControlSystem.cs:176-185 | The HELLO loop fails exactly when there is no name and another client exists. Otherwise it writes the greetings in list order. |
| Example4.ControlSystem.Respond | Example4/ControlSystem.cs:157-190 | The writes and outcome for a text of 3 or more characters are those of the decision table. |
| Example4.ControlSystem.HandleChunk | Example4/ControlSystem.cs:126-196 | The writes and outcome for one read are those of `HandleRead`. |
| Example4.ControlSystem.ClientSession | Example4/ControlSystem.cs:105-217 | The session writes the welcome, the prompt and then exactly the transcript of its reads. It ends as the transcript says, and it removes its client from the list unless it crashed. |
| ThreadTest.Increment | ThreadTest/Test1.cs:65 | `_counter++` on a long stays within the long range and equals one more modulo 2^64. |
| ThreadTest.TimerEventArgs.constructor | ThreadTest/Test1.cs:10-13 | The default message is "No message.". |
| ThreadTest.TimerEventArgs.WithMessage | ThreadTest/Test1.cs:15-18 | The message is the argument, verbatim. |
| ThreadTest.EventMessage | ThreadTest/Test1.cs:69 | Defines `String.Format("{0}: counting {1}", ...)`. It has no contract of its own. `EventMessageParts` pins it down. |
| ThreadTest.EventMessageParts | ThreadTest/Test1.cs:69 | The event message is the name, then ": counting ", then the canonical decimal numeral of the counter, whose value is the counter. |
| ThreadTest.Initialized | ThreadTest/Test1.cs:35-40 | Defines Initialize: name and frequency stored and the timer created, with running and the counter kept. It has no contract of its own. `CountsFromStart` uses it, and `Test1.Initialize` is proved to follow it. |
| ThreadTest.Started | ThreadTest/Test1.cs:42-50 | Defines Start: set running and reset the counter, only when not running. It has no contract of its own. `StartStopIdempotent`, `RestartResets` and `CountsFromStart` pin it down, and `Test1.Start` is proved to follow it. |
| ThreadTest.StartFails | ThreadTest/Test1.cs:44-48 | Start throws exactly when it is not running and there is no timer yet. It has no contract of its own. `Test1.Start` reports it. |
| ThreadTest.Stopped | ThreadTest/Test1.cs:52-59 | Defines Stop: clear running, only when running, and keep the counter. It has no contract of its own. `StartStopIdempotent` and `RestartResets` pin it down, and `Test1.Stop` is proved to follow it. |
| ThreadTest.StopFails | ThreadTest/Test1.cs:54-57 | Stop throws exactly when it is running and there is no timer yet. It has no contract of its own. `Test1.Stop` reports it. |
| ThreadTest.Ticked | ThreadTest/Test1.cs:61-65 | Defines DoWork's effect: increment the counter only while running. It has no contract of its own. `TicksCount`, `TicksWhileStopped` and `TickWrapsAround` pin it down, and `Test1.DoWork` is proved to follow it. |
| ThreadTest.TickEvent | ThreadTest/Test1.cs:63-70 | Defines the event a tick raises: only while running with a subscribed handler, carrying the incremented counter. It has no contract of its own. `Test1.DoWork` is proved to raise exactly it. |
| ThreadTest.Fails | ThreadTest/Test1.cs:42-59 | A call throws exactly when it is a Start or Stop that throws. It has no contract of its own. |
| ThreadTest.Run | ThreadTest/Test1.cs:35-72 | Defines the state after a sequence of calls, ending at the first call that throws. It has no contract of its own. `RunKeepsLong`, `TicksCount`, `TicksWhileStopped`, `CountsFromStart` and `RestartResets` pin it down. |
| ThreadTest.Apply | ThreadTest/Test1.cs:35-72 | Every call keeps the counter and the frequency within the long range. |
| ThreadTest.Ticks | ThreadTest/Test1.cs:61 | n timer ticks are n DoWork calls. |
| ThreadTest.RunKeepsLong | ThreadTest/Test1.cs:61-65 | Any sequence of calls keeps the counter and the frequency within the long range. |
| ThreadTest.TicksWhileStopped | ThreadTest/Test1.cs:61-63 | Ticks while stopped change nothing. |
| ThreadTest.TicksCount | ThreadTest/Test1.cs:61-65 | n ticks while running add n to the counter, as long as it stays below the largest long, and change nothing else. |
| ThreadTest.TickWrapsAround | ThreadTest/Test1.cs:65 | A tick at the largest long wraps the counter to the smallest. |
| ThreadTest.CountsFromStart | ThreadTest/Test1.cs:35-65 | Initialize, then Start on a stopped object, then k ticks: the object runs under the given name and period with the counter at k. |
| ThreadTest.RestartResets | ThreadTest/Test1.cs:42-59 | Stop then Start on an initialized object restarts the count from 0. |
| ThreadTest.StartStopIdempotent | ThreadTest/Test1.cs:42-59 | Start while running and Stop while stopped change nothing, so each is idempotent. |
| ThreadTest.Test1.constructor | ThreadTest/Test1.cs:31-33 | A new object is stopped, with counter 0, frequency 0, no name and no timer. |
| ThreadTest.Test1.Initialize | ThreadTest/Test1.cs:35-40 | Stores the name and frequency and creates the timer. Running and the counter are unchanged. |
| ThreadTest.Test1.Start | ThreadTest/Test1.cs:42-50 | When not running: sets running and resets the counter to 0, failing only when there is no timer yet. Otherwise changes nothing. |
| ThreadTest.Test1.Stop | ThreadTest/Test1.cs:52-59 | When running: clears running and keeps the counter, failing only when there is no timer yet. Otherwise changes nothing. |
| ThreadTest.Test1.DoWork | ThreadTest/Test1.cs:61-72 | When running: increments the counter. With a subscribed handler it raises a fresh event whose message is "<name>: counting <counter>", using the incremented counter. When stopped: changes nothing and raises nothing. |

## Left out

- The threads, the `Thread.Sleep` polling, `Pending()`, `DataAvailable` and the accept loop: these are concurrency and I/O plumbing. A session's reads are given as a sequence, and the client list does not change while a session runs, so interleavings with other sessions and accepts are not modelled.
- `TcpListener`, `TcpClient` and `NetworkStream`, including `Close`, `Stop`, `using` disposal and `Write`: these are socket calls. Each write becomes an appended `Delivery`, and exceptions thrown by writes to other clients' streams are not modelled. One consequence: after a HELLO without a name crashes a session, its client stays in the list with its stream already disposed by `using`. In C#, a later `HELLO <name>` from another session would then throw when it writes to that stream (lines 182-183) and crash as well. The model instead greets the stale entry and carries on.
- `CrestronConsole` printing and the hex dump of short input: these are logging only.
- `HandleProgramEvent` and the rest of the control-system scaffolding: not part of the command logic.
- Text.Upper: upper-cases ASCII letters only, not culture-specific casing of other characters. This is sufficient for the command keywords, which are ASCII.
- The `CTimer` scheduling in `Test1` (construction, `Reset(_frequency, _frequency)`, `Stop()`): a timer tick is an explicit `DoWork` call. Ticks from an older timer after a second `Initialize` are therefore not modelled either.
- A null `name` passed to `Initialize`: names are texts.
- `ThreadTest/Test2.cs`: a `CMutex`-guarded counter shared across threads, which is concurrency.
- `Example3/ControlSystem.cs`: a thin wrapper over the Crestron `TCPServer` library.
- Idle timeouts, capacity limits and session ids: the code has none.
