# OgarII core: listener, log handler and command registry

This project is a Dafny model of three parts of the OgarII game server.

- **The listener** (`listener.dfy`, module `Listener`) owns the WebSocket accept socket. It
  keeps the roster of client connections and the roster of playing routers.
  - It admits or refuses each incoming client: the origin allow-list is checked first, then the
    capacity.
  - It routes each new connection: the connection gets a player and joins the global chat.
    Then the connection is either queued in the matchmaker or told that it must queue.
  - On every tick it updates each roster entry once, in roster order, even while routers
    remove themselves from the roster; a router listed twice is updated twice. Then it closes every connection that has been idle too long.
- **The log handler** (`log_handler.dfy`, module `LogHandler`) formats timestamps and log
  records. It decides which records reach the console and which reach the file.
  - Outside synchronous mode, it sends each file line to the stream as its own chunk.
    In synchronous mode, lines wait in the queue for the final flush.
  - On an uncaught exception or at exit, it destroys the stream and appends what remains to
    the file synchronously.
  - The class `LogSink` holds the module's mutable state. Its invariant says that, while the
    stream is open, the chunks issued to the stream followed by the queue are exactly the
    file lines in the order they were written.
- **The command registry** (`commands.dfy`, module `Commands`) holds console commands in a
  table keyed by name. Names are lower-cased on construction. It produces each command's help
  line. `execute` splits an input line at spaces, looks up the lower-cased first word, and runs
  that command with the remaining words.
- **JavaScript built-ins** (`js_builtins.dfy`, module `JsBuiltins`): the core relies on
  `split`, `join`, `indexOf` and `splice(…, 1)`. This module writes out their behaviour,
  including `splice(-1, 1)`, which removes the last element when `indexOf` finds nothing.

Collaborators are represented as follows:
- In the listener, the connection objects, the chat channel, the matchmaker and each router's
  own `update` become entries of a ghost event log.
- In the log handler, the console and the file contents become ghost sequences and strings.
- In the registry, each command's executor is an opaque identity.
- Clock readings and `new Date()` values are parameters (`now`, `stamp`, `Date`).

## Model

| member | source | states |
|---|---|---|
| JsBuiltins.Split | src/sockets/Listener.js:47 | `split(" ")` always yields at least one token, and no token contains the separator |
| JsBuiltins.SplitThenJoin | src/commands/Commands.js:42 | joining the tokens of a split with the separator gives back the input line |
| JsBuiltins.JoinThenSplit | src/commands/Commands.js:42 | splitting a join of separator-free words gives back exactly those words |
| JsBuiltins.JoinEmptyAppend | cli/log-handler.js:120 | `join("")` of two queues put end to end is the two joins concatenated |
| JsBuiltins.IndexOf | src/sockets/Listener.js:76 | `indexOf` is -1 exactly when the element is absent; otherwise it is the first position holding the element |
| JsBuiltins.RemoveByIndexOf | src/sockets/Listener.js:76 | `splice(indexOf(x), 1)` removes the first occurrence of a present element; for an absent element it removes the last element, and an empty array is left as it is |
| Listener.Verify | src/sockets/Listener.js:46-60 | a listed or unconfigured origin with a connection count at most the maximum is accepted; an unlisted origin gets 403 whatever the load; otherwise a count above the maximum gets 503 |
| Listener.OriginCheckComesFirst | src/sockets/Listener.js:46-57 | the origin check takes precedence over the capacity check; with no allow-list only the capacity decides |
| Listener.Listener.VerifyClient | src/sockets/Listener.js:44-61 | the loop over the allow-list tokens, with its early break, gives exactly the verdict of `Verify` |
| Listener.Listener.constructor | src/sockets/Listener.js:11-21 | no socket is bound and both rosters are empty |
| Listener.Listener.Open | src/sockets/Listener.js:26-35 | binds a socket on the configured port only when none is bound, and reports whether it did |
| Listener.Listener.Close | src/sockets/Listener.js:36-42 | releases the socket only when one is bound, reports whether it did, and leaves none bound |
| Listener.OpenCloseTwice | src/sockets/Listener.js:26-42 | opening twice binds once and closing twice releases once |
| Listener.Listener.AddPlayingRouter | src/sockets/Listener.js:69-71 | the router is appended to the roster |
| Listener.Listener.RemovePlayingRouter | src/sockets/Listener.js:75-77 | the roster becomes `RemoveByIndexOf` of the old roster |
| Listener.Routing | src/sockets/Listener.js:88-91 | with queuing required, the new connection receives the queuing notice and then the spawn hint as direct messages, and no enqueue; otherwise it gets exactly one enqueue |
| Listener.Listener.OnConnection | src/sockets/Listener.js:82-92 | a fresh connection is appended to the roster; the player is created, then the chat join, then the routing effects, in that order |
| Listener.Listener.OnDisconnection | src/sockets/Listener.js:99-103 | the connection leaves the chat, and the connection roster loses it by indexOf and splice |
| Listener.Live | src/sockets/Listener.js:107-111 | the routers that stay connected, in roster order, are never more than the roster |
| Listener.LiveMembers | src/sockets/Listener.js:107-111 | the kept routers are exactly the roster's routers that stay connected |
| Listener.LiveDropsOne | src/sockets/Listener.js:107-111 | when one router disconnects in a duplicate-free roster, every other router is kept in order |
| Listener.LiveKeepsAll | src/sockets/Listener.js:107-111 | when no router disconnects, the roster is unchanged |
| Listener.ScanRemove | src/sockets/Listener.js:75-110 | a disconnecting router that removes itself mid-scan is found by indexOf at its own place, even when the roster lists it more than once, so stepping back one place continues with the next router |
| Listener.DistinctNotBefore | src/sockets/Listener.js:76 | in a duplicate-free roster, no router occurs before its own position, so indexOf of the router at `n` is `n` |
| Listener.Listener.TickRouter | src/sockets/Listener.js:108-110 | the router's update is recorded; a disconnecting router removes itself from the roster and raises `isDisconnected` |
| Listener.Listener.UpdateRouters | src/sockets/Listener.js:106-111 | every entry of the old roster is updated once, in roster order (a router listed twice is updated twice), and the roster ends as `Live`, the entries that stayed connected; this holds for any roster, and a roster without repetitions keeps none |
| Listener.LiveDistinct | src/sockets/Listener.js:107-111 | the routers kept from a roster without repetitions have no repetitions, so the next tick's scan starts from a valid roster |
| Listener.DormancyCloses | src/sockets/Listener.js:113-117 | the closes issued by the dormancy scan are never more than the connections |
| Listener.DormancyClosesExactly | src/sockets/Listener.js:113-117 | every close is a 1003 close of a connection idle for at least the maximum dormancy, and every such connection is closed |
| Listener.Listener.CloseDormant | src/sockets/Listener.js:113-117 | the loop's closes are exactly `DormancyCloses` of the connection roster |
| Listener.Listener.Update | src/sockets/Listener.js:105-118 | for any router roster, the routers are updated first, then dormant connections are closed; the connection roster is unchanged, and a roster without repetitions keeps none |
| Listener.RepeatedRouterScan | src/sockets/Listener.js:69-111 | the scan's specification on `[a, b, a]` with `a` disconnecting keeps `[b]` and ticks a, b, a |
| Listener.TickRepeatedRouter | src/sockets/Listener.js:69-111 | with `[a, b, a]` and `a` disconnecting, the scan updates a, b, a in that order and leaves `[b]` |
| LogHandler.NatToDecimalDigits | cli/log-handler.js:34 | the decimal numeral of a natural is all digits, reads back as that number, and has no leading zero |
| LogHandler.IntToDecimalDigits | cli/log-handler.js:34 | an integer's numeral starts with '-' exactly for negatives, and the rest reads back as its magnitude |
| LogHandler.IntToDecimalInjective | cli/log-handler.js:34 | different years give different numerals |
| LogHandler.DecimalCanonical | cli/log-handler.js:34 | a digit string without a leading zero is the numeral of its own value |
| LogHandler.PadDigits | cli/log-handler.js:35-40 | `("00" + n).slice(-2)` (and the 3-digit form) has exactly the width and holds `n` modulo the power of ten |
| LogHandler.PadFits | cli/log-handler.js:35-40 | a value below the power of ten is read back unchanged from its padded form |
| LogHandler.PadInjective | cli/log-handler.js:35-40 | padding is injective on values that fit the width |
| LogHandler.ClockLayout | cli/log-handler.js:60-69 | `time()` is 8 characters: two-digit hours, minutes and seconds separated by ':' |
| LogHandler.CalendarDateLayout | cli/log-handler.js:34-36 | the date part is the year's numeral, '-', two-digit month counted from 1, '-', two-digit day |
| LogHandler.DateTimeLayout | cli/log-handler.js:33-42 | `dateTime` is the date, a space, the clock, '.', and three-digit milliseconds |
| LogHandler.FilenameLayout | cli/log-handler.js:47-55 | `filename` is the date, 'T', the clock with '-' separators, and `.log` |
| LogHandler.CalendarDateInjective | cli/log-handler.js:34-36 | in-range dates with equal date parts agree on year, month and day |
| LogHandler.ClockInjective | cli/log-handler.js:60-69 | in-range times with equal clocks agree on hours, minutes and seconds |
| LogHandler.DateTimeInjective | cli/log-handler.js:33-42 | `dateTime` determines the whole in-range date, milliseconds included |
| LogHandler.FilenameInjective | cli/log-handler.js:47-55 | two archived log files can share a name only when their dates differ at most in milliseconds |
| LogHandler.DateTimePrefixUnique | cli/log-handler.js:103-104 | a log line's leading timestamp can be parsed back: the date and the rest of the line are both determined |
| LogHandler.NameInjective | cli/log-handler.js:96-104 | different levels print different tags |
| LogHandler.Visibility | cli/log-handler.js:1-21 | every level reaches the file; exactly FILE, DEBUG and ACCESS are kept off the console |
| LogHandler.AfterTimestamp | cli/log-handler.js:99-106 | what follows the timestamp in a file line starts with a space and ends with the message |
| LogHandler.FormatShapes | cli/log-handler.js:91-106 | PRINT and FILE records print the bare message on the console and `stamp message` in the file; other levels print the same tagged line on both |
| LogHandler.FormatsFrameMessage | cli/log-handler.js:91-106 | every formatted line ends with the message; every file line starts with the timestamp |
| LogHandler.FileLineSplits | cli/log-handler.js:112 | a file line is the timestamp, then the rest of the record, then EOL |
| LogHandler.FileLineInjective | cli/log-handler.js:103-112 | two file lines of the same level stamped with in-range dates are equal only when their dates and messages are |
| LogHandler.PushKeepsOrder | cli/log-handler.js:112 | pushing a line keeps "issued chunks, then queue" equal to the lines written |
| LogHandler.IssueKeepsOrder | cli/log-handler.js:120-122 | issuing the joined queue as a chunk and emptying the queue keeps that equality |
| LogHandler.LogSink.constructor | cli/log-handler.js:84-89 | the stream is open, not synchronous, and nothing is queued, issued or written |
| LogHandler.LogSink.Fprocess | cli/log-handler.js:116-124 | with an empty queue, clears the chunk in flight; otherwise issues the whole queue as one chunk and empties it; on a destroyed stream it fails with nothing issued |
| LogHandler.LogSink.Write | cli/log-handler.js:108-115 | console and file lines grow by the record exactly as the masks say; outside synchronous mode the line is issued at once, in synchronous mode it waits in the queue |
| LogHandler.LogSink.FprocessSync | cli/log-handler.js:125-131 | destroys the stream and appends the chunk in flight and then the queue; together with the issued chunks this is every file line; a second call fails with nothing appended |
| LogHandler.LogSink.OnUncaughtException | cli/log-handler.js:132-139 | logs the FATAL stack, then the ERROR notice, and appends both after what was pending, in that order |
| LogHandler.LogSink.OnExit | cli/log-handler.js:140-144 | logs `ended with code N` at INFO and appends it after what was pending |
| Commands.LowerChar | src/commands/Commands.js:9 | each of 'A'..'Z' becomes the matching letter of 'a'..'z', and every other character is unchanged |
| Commands.ToLower | src/commands/Commands.js:9 | lower-casing keeps the length and maps each character by `LowerChar` |
| Commands.ToLowerIdempotent | src/commands/Commands.js:9 | a lower-cased name has no upper-case letter and lower-casing it again changes nothing |
| Commands.NewCommand | src/commands/Commands.js:8-13 | the name is stored lower-cased; description, usage hint and executor are stored as given |
| Commands.ToStringShape | src/commands/Commands.js:15-17 | the help line starts with the name and ends with ` - ` and the description; it is longer than those two exactly when the usage hint is non-empty, so it is never the bare name |
| Commands.GenCommand | src/commands/Commands.js:56-58 | a command built from the info record carries its lower-cased name, its fields and the help line they give |
| Commands.LastNamed | src/commands/Commands.js:34 | the last position holding a command of the name, or -1 when no command has it |
| Commands.OverlayLookup | src/commands/Commands.js:30-36 | after registration a name maps to the last command of that name; names no command has keep their old entry |
| Commands.OverlayKeyedByName | src/commands/Commands.js:34 | registration keeps every command under its own name |
| Commands.FirstClash | src/commands/Commands.js:33 | the command registration throws at, if any, is a position of the sequence |
| Commands.NoClashIff | src/commands/Commands.js:31-33 | registration does not throw exactly when no command fails the check |
| Commands.FirstClashIsFirst | src/commands/Commands.js:31-33 | the command thrown at fails the check, and none before it does |
| Commands.RegisterThrowsIff | src/commands/Commands.js:30-36 | as written, `register` throws exactly when some command's help line is already a key, and the commands before it stay registered |
| Commands.RegisterLastWins | src/commands/Commands.js:30-36 | as written, a registration that does not throw leaves each name with its last command |
| Commands.DuplicateNameSlipsThrough | src/commands/Commands.js:33-34 | as written, two commands named `help` register without a throw and the second replaces the first; checked by name, the second throws |
| Commands.RegisterByNameKeepsAll | src/commands/Commands.js:30-36 | checked by name, a registration without a throw stores each command under its name and changes no earlier entry |
| Commands.RegisterByNameRejectsDuplicate | src/commands/Commands.js:33 | checked by name, a second command with a taken name throws at or before it |
| Commands.CommandList.constructor | src/commands/Commands.js:21-25 | the table is empty |
| Commands.CommandList.Register | src/commands/Commands.js:30-36 | it throws exactly when some command fails the chosen check; the loop leaves exactly the table and the throw position of `Registration` under that check (the help line as written, or the name as corrected), and keeps every command under its name |
| Commands.DispatchWords | src/commands/Commands.js:42-45 | a line of space-free words runs the command its lower-cased first word names, with exactly the remaining words |
| Commands.DispatchEmptyLine | src/commands/Commands.js:42-44 | the empty line is one empty word and runs no command unless one is registered under "" |
| Commands.CommandList.Execute | src/commands/Commands.js:41-47 | reports whether a command ran, records exactly one executor call when one did, and leaves the table unchanged |

## Left out

- The listener's `uws` server, the `onOpen` callback and all logger calls are not modelled. They only log or are asynchronous socket plumbing. The socket is reduced to the port it binds.
- `new Connection(…)`, `ChatChannel`, the matchmaker and `PlayingRouter.update` are collaborators. Each is one entry of the listener's event log. A connection's `lastActivityTime` is a constant read at scan time; the connection refreshes it on every inbound message, and those refreshes between ticks are not modelled.
- Listener.Listener.CloseDormant: `Date.now()` is read once per connection in the source. The model reads one `now` for the whole scan, so a clock that advances during the scan is not captured.
- Listener.Listener.UpdateRouters: a router's `update` is modelled as "a router in `disconnecting` sets `isDisconnected` and removes itself from the roster". Other effects of `update` on the roster, and routers that were already disconnected, are not modelled.
- Listener.Listener.CloseDormant: assumes `closeSocket` does not run `onDisconnection` synchronously. If it did, the connection roster would be spliced in the middle of the scan; the model keeps the roster fixed during the scan.
- LogHandler: `EOL` is fixed to "\n"; the platform's "\r\n" is not modelled.
- LogHandler: the level is one of the eight levels of the masks. An unknown level string (which both masks treat as hidden) is not modelled.
- LogHandler: the setup that creates `./logs/`, archives or deletes the previous `latest.log` and opens the stream touches the filesystem and is not modelled. Only the archive name (`filename`) is.
- LogHandler: `process.once` registration, `removeAllListeners("exit")` and `process.exit(1)` are process control and are not modelled. The handlers are methods called directly.
- LogHandler: the completion callback passed to `fstream.write` runs asynchronously in the source. The model runs it only when `Fprocess` is called again; write durability and ordering inside the stream are not modelled.
- LogHandler: the `flushed` variable is never read and is left out.
- LogHandler.LogSink.Fprocess: a completion callback that arrives after the stream is destroyed succeeds and clears `fconsuming` when the queue is empty, as the source does; with a non-empty queue the source's TypeError is modelled only as the failure `ok == false`, with the queue kept.
- LogHandler.LogSink.FprocessSync: the chunk in flight is appended even if the stream had already written it, so the file may hold it twice. The contract states the appended text itself; it does not carry the ordering invariant after the stream is destroyed.
- LogHandler.LogSink.Write: takes the formatted timestamp (`dateTime(date)`) rather than the date, because the date enters a line only through `dateTime`. The same holds for the two handlers.
- Commands.ToLower: covers ASCII letters only. `toLowerCase` also lowers non-ASCII letters, and for some (e.g. 'İ') the result is longer; the `|r| == |s|` ensures excludes that.
- Commands.LowerChar: maps only 'A'..'Z'; other upper-case letters are left unchanged, unlike `toLowerCase`.
- Commands: the name `__proto__` is not modelled. In the source, `list["__proto__"] = command` replaces the table's prototype and stores no entry, whereas the model stores it like any other name.
- Commands: executors are opaque identities; their bodies and the server handle are not modelled. A command whose `args` or `description` is some non-string value is not modelled.
- Commands.CommandList.Execute: the `split.length === 0` branch is omitted because `split` never returns an empty array (`JsBuiltins.Split` ensures at least one token).
- LogHandler.LogSink.OnUncaughtException: `stack` is a string. A thrown value that is not an `Error` has no `stack`, and the source then logs the text "undefined"; that case is not modelled.
- Commands.CommandList.Register: takes the check as a parameter. `HelpLineKey` is the code as written and `NameKey` is the corrected check (see Findings).

## Findings

| source | as written | input that shows it | evidently intended | confidence | as-written member | corrected member |
|---|---|---|---|---|---|---|
| src/commands/Commands.js:33 | `this.list.hasOwnProperty(command)` converts the command object to a property key through `toString`, so the duplicate check looks up the help line `name - description`, never the name | registering `help` ("lists commands") and then a second `help` ("shows help"): no throw, and the second replaces the first | throw when `command.name` is already registered; the table is keyed by name and a duplicate registration is meant to be a fatal startup error | high; not executed | Commands.DuplicateNameSlipsThrough (with Commands.RegisterAll, Commands.RegisterThrowsIff) | Commands.RegisterAllByName with Commands.RegisterByNameRejectsDuplicate, Commands.RegisterByNameKeepsAll, Commands.CommandList.Register with `NameKey` |
