# Line-oriented TCP chat server, modelled in Dafny

This project models the connection state machine of a small TCP chat server, `index.js`. Clients connect and log in under a unique name. They then exchange broadcast (`MSG`) and direct (`DM`) messages over a line protocol. The model covers five parts of the server:

- **The line framer** of the `data` handler. Received text is appended to a per-socket buffer. Complete lines are cut off one at a time. Each line loses one trailing `\r`, is trimmed, and, unless empty, is passed to `processLine`.
- **`processLine`**. Before login only `LOGIN` and `PING` are served. After login `MSG`, `WHO`, `DM` and `PING` are served. The command word is the first `' '`-separated token, upper-cased.
- **The registries**: the `users` Map (name to socket) and the `sockets` Set, both in insertion order.
- **Delivery**: `safeWrite`, and `broadcast` with an optional excluded socket.
- **Connection set-up, `cleanupSocket`, and the firing of the idle timer.**

Modules:

- `Text`: `trim()`, the whitespace-collapsing regular expression, `split(' ')`/`join(' ')`, `toUpperCase()` of command words, and the `\r` strip. All are pure functions with lemmas.
- `Framing`: the framer as functions of the received text.
  - `RawLines` is the complete lines and `Remainder` the buffered tail.
  - `Commands` is the lines that reach `processLine`.
- `Registry`: the Map and the Set as sequences in iteration order, with `Put`, `Delete`, `Lookup`, `Without` and `Add`.
- `Delivery`: every write as a `Write(to, text)` in one ordered log.
  - `Inbox` is one client's view of the log.
  - `Fanout` is what a broadcast writes.
  - `UserList` is the `WHO` reply.
- `Protocol`: how a command line is split into command word, argument, DM target and DM text, and the reply strings.
- `Handlers`: the whole server state as one value, `World`, and each event handler as a function on it.
  - `ConnectStep`, `ProcessStep` (with `LoginStep`, `ChatStep`, `WhoStep`, `DmStep`), `DataStep`, `CleanupStep` and `ExpireStep` are the handlers.
  - `Consistent` is the invariant they keep.
  - The lemmas state what each client receives, what each handler changes and leaves alone, and that the invariant holds.
- `Server`: the class `ChatServer`. Its fields are `sockets`, `users`, the per-socket `sessions`, the write `log` and `nextSid`, the identity of the next connection. Its methods are the event handlers, which update the fields in place. Each event-handler method ensures `State() == XStep(old(State()), ...)`, where `XStep` is its function in `Handlers`. That pins the whole new state, so a method cannot change a field its handler leaves alone. The helper methods pin the new state too: `SafeWrite` and `Broadcast` state that only the log grew, and `ResetIdleTimer`, `AppendToBuffer`, `NextLine`, `RemoveSocket`, `Unregister` and `DisarmIdleTimer` state the new state as an update of the old one.

Every event handler runs to completion before the next one starts, so each event is one method call.

## How the model follows the code

In these places the code's behaviour is easy to misread, and the model follows the code:

- **Splitting the command line.** The command word is separated by single spaces (`line.split(' ')`), not by any whitespace. So `DM  bob hi` (two spaces) has an empty target and gets `ERR invalid-dm`. A tab after `LOGIN` makes the whole line the command word.
- **Idle timeout.** The timeout constant is `6000 * 1000` ms, which is 100 minutes, not the 60 seconds its comment states. The timer is restarted on every `data` event, not on every line.
- **Chunk boundaries.** The line framer keeps unterminated text in the buffer, so the whole server state after two `data` events equals the state after one event carrying both chunks (`Handlers.DataChunks`).
- **Cleanup is not idempotent.** `cleanupSocket` runs on `end`, on `close` and on `error`, and it never clears `_username`.
  - A second run on the same socket broadcasts `INFO <name> disconnected` again to the remaining sockets. `ChatServer.EndThenClose` states this.
  - It also deletes the name from `users` whichever socket holds it now. `ChatServer.Cleanup` ensures `State() == CleanupStep(old(State()), sid)`, and `Handlers.CleanupStep` sets `users` to `Delete(users, n)` without checking which socket holds `n`. So a late `close` from an old socket removes the registration of a newer session that logged in under the same name.
  - Removal from `sockets` is idempotent (`Registry.WithoutTwice`). So is deleting the same key twice with nothing in between (`Registry.DeleteTwice`). The broadcast is not idempotent (`Handlers.CleanupTwice`).
- **Truthiness.** `cleanupSocket` tests `if (sock._username)`, so a socket whose name is `null` or empty neither unregisters nor broadcasts. `Handlers.CleanupStep` tests for a name that is present and non-empty.
- **`null` in messages.** A template literal shows a `null` name as `null`. `Handlers.Shown` renders the sender's name this way in `MSG` and `DM` lines. Under the invariant a logged-in socket always has a non-empty name (`Handlers.ShownLoggedIn`), so this case does not arise.
- **Cleanup does not close the session.** Each socket's handler state outlives its cleanup. `sessions` keeps every socket that ever connected, and a later `data` event on it is handled as the code would handle it.

## Model

| member | source | states |
|---|---|---|
| Text.TrimStart | index.js:80 | the result is no longer than the input and does not start with whitespace |
| Text.TrimStartDropsWhitespace | index.js:80 | `trimStart` drops exactly a whitespace-only prefix: the result is a suffix of the input and what precedes it is all whitespace |
| Text.TrimEnd | index.js:80 | the result is no longer than the input, does not end with whitespace, and keeps the first character |
| Text.TrimEndDropsWhitespace | index.js:80 | `trimEnd` drops exactly a whitespace-only suffix: the result is a prefix of the input and what follows it is all whitespace |
| Text.Trim | index.js:80 | the trimmed string neither starts nor ends with whitespace |
| Text.TrimIsSlice | index.js:80 | the trimmed string is a contiguous part of the input between a whitespace-only prefix and a whitespace-only suffix |
| Text.TrimEmpty | index.js:106-107 | trimming gives the empty string exactly when the input is all whitespace, so LOGIN refuses exactly the blank names |
| Text.TrimOfTrimmed | index.js:80 | trimming a string without outer whitespace changes nothing |
| Text.TrimStartAppend | index.js:135 | `trimStart` of a string that is not all whitespace, followed by more text, removes only the first string's leading whitespace |
| Text.TrimStartRun | index.js:135 | `trimStart` removes a whitespace run exactly up to the next visible character |
| Text.StripCR | index.js:80 | one trailing `\r` is removed, and a string not ending in `\r` is unchanged |
| Text.Collapse | index.js:135 | collapsing gives the empty string only for empty input and starts with whitespace exactly when the input does |
| Text.CollapseIsCollapsed | index.js:135 | after collapsing, every whitespace character is a plain space and no two whitespace characters are adjacent |
| Text.CollapseAppend | index.js:135 | the regular expression is applied piece by piece: collapsing `a + b`, where `a` ends in a visible character, is collapsing `a` and then `b` |
| Text.CollapseRun | index.js:135 | every maximal whitespace run becomes exactly one space: a non-empty whitespace run before a visible character or the end collapses to `" "` |
| Text.CollapseWord | index.js:135 | text without whitespace is left as it is |
| Text.CollapseOfCollapsed | index.js:135 | collapsing an already collapsed string changes nothing |
| Text.CleanTwoWords | index.js:135 | two words separated by any non-empty whitespace run are cleaned to the two words with one space between them |
| Text.Clean | index.js:135 | `replace(/[\s\t\n\r]+/g, ' ').trim()`; its contract is stated by `CleanIsClean`, `CleanKeepsVisible`, `CleanEmpty`, `CleanIdempotent` and `CleanTwoWords` |
| Text.CleanIsClean | index.js:135 | the cleaned payload has no leading or trailing whitespace and no run of two or more whitespace characters |
| Text.CleanOfClean | index.js:135 | cleaning a clean string returns it unchanged |
| Text.CleanIdempotent | index.js:152 | cleaning twice is cleaning once |
| Text.CleanKeepsVisible | index.js:135 | cleaning keeps every non-whitespace character, in order, and removes only whitespace |
| Text.CleanEmpty | index.js:133 | the cleaned payload is empty exactly when the payload was all whitespace |
| Text.Split | index.js:102 | `split` always yields at least one field |
| Text.SplitFieldsFree | index.js:102 | no field of a split contains the separator |
| Text.Join | index.js:106 | `join(' ')`; its contract is stated by `JoinSplit` and `SplitJoin`, which make it the inverse of `Split` |
| Text.JoinSplit | index.js:106 | joining the fields of a split restores the original string |
| Text.SplitField | index.js:102 | a separator-free word followed by the separator splits off as the first field |
| Text.SplitJoin | index.js:102 | splitting a join of separator-free fields gives the fields back |
| Text.Upper | index.js:103 | `toUpperCase()` maps the token character by character and keeps its length; `UpperMatches` states what it is compared with |
| Text.UpperMatches | index.js:103 | the upper-cased token equals an upper-case word exactly when each of its characters spells the corresponding letter in either case |
| Framing.IndexOf | index.js:76 | the result is -1 or a position in the string |
| Framing.IndexOfFinds | index.js:76 | `indexOf` is -1 exactly when the character is absent, and otherwise the position of its first occurrence |
| Framing.RawLines | index.js:76-78 | the complete lines of the received text; stated by `NoNewlineInPieces`, `FramingRoundTrip`, `FirstLine` and `ChunkBoundary` |
| Framing.Remainder | index.js:76-78 | the unterminated tail left in the buffer; stated by `NoNewlineInPieces`, `FramingRoundTrip`, `NoNewlineStaysBuffered` and `ChunkBoundary` |
| Framing.NoNewlineInPieces | index.js:76-78 | neither a complete line nor the buffered tail contains `\n` |
| Framing.FramingRoundTrip | index.js:73-78 | the complete lines, each with its `\n`, followed by the buffered tail, are the received text |
| Framing.NoNewlineStaysBuffered | index.js:76 | text without `\n` yields no line and stays buffered entirely |
| Framing.FirstLine | index.js:76-78 | one turn of the loop takes exactly the first complete line and leaves the other lines and the same tail |
| Framing.NoLine | index.js:76 | when `indexOf` finds no `\n` the loop stops with no line pending and the whole buffer as tail |
| Framing.LineAt | index.js:77-78 | the text before a first `\n` is the first complete line; the rest holds the other lines and the tail |
| Framing.SplitAfterLines | index.js:76-78 | complete lines in front of any text split off one by one, in order |
| Framing.ChunkBoundary | index.js:71-84 | framing `a + b` gives the lines of `a`, then the lines of what `a` left buffered followed by `b`, and the same tail |
| Framing.FramedAll | index.js:76-78 | once the buffer holds no `\n`, every line of the received text has been taken off and the buffer is its tail |
| Framing.Normalize | index.js:80 | `replace(/\r$/, '').trim()`; stated by `NormalizeNoNewline`, `DispatchableOne` and `DispatchableAreTrimmed` |
| Framing.NormalizeNoNewline | index.js:80 | normalising a line without `\n` gives a line without `\n` |
| Framing.NormalizeAll | index.js:80 | each complete line normalised, in order; stated by `NormalizeAllAppend` and `NormalizeAllAt` |
| Framing.NormalizeAllAt | index.js:80 | normalising a run of lines keeps its length, and each position holds its line normalised |
| Framing.DropEmpty | index.js:81 | the lines without the empty ones (`continue`); stated by `DropEmptyKeeps` and `DropEmptyAppend` |
| Framing.Dispatchable | index.js:80-82 | the lines that reach `processLine` from a run of complete lines; stated by `DispatchableAreTrimmed`, `DispatchableAppend` and `DispatchableOne` |
| Framing.NormalizeAllAppend | index.js:80 | normalising two runs of lines is normalising each |
| Framing.DropEmptyAppend | index.js:81 | skipping empty lines in two runs of lines is skipping them in each, in order |
| Framing.DropEmptyKeeps | index.js:81 | every kept line is non-empty and one of the input lines |
| Framing.DispatchableAreTrimmed | index.js:80-82 | each dispatched line is non-empty and has no outer whitespace, and it has no `\n` when the complete lines have none |
| Framing.DispatchableAppend | index.js:76-82 | the lines dispatched from two runs of complete lines are those of the first run, then those of the second, in stream order |
| Framing.DispatchableOne | index.js:80-82 | one complete line is dispatched normalised, unless it normalises to the empty line |
| Framing.Commands | index.js:76-82 | the lines of the received text that reach `processLine`; stated by `CommandsAreClean` and `CommandsChunkBoundary` |
| Framing.CommandsChunkBoundary | index.js:71-84 | the command lines dispatched are the same whether the text arrives as chunk `a` then `b` or as `a + b` |
| Framing.CommandsAreClean | index.js:80-82 | every dispatched command line is non-empty, holds no `\n`, and has no leading or trailing whitespace |
| Registry.Names | index.js:138 | the Map's keys in iteration order, one per entry |
| Registry.Lookup | index.js:111 | `users.get`; stated by `LookupFinds`, `LookupEntry`, `PutLookup` and `DeleteLookup` |
| Registry.LookupFinds | index.js:111 | `get` misses exactly the names that are not keys, and what it finds is an entry of the Map |
| Registry.LookupEntry | index.js:153 | with unique keys, `get(name)` is the socket of the entry holding that name |
| Registry.Put | index.js:118 | `users.set`; stated by `PutLookup`, `PutNames`, `PutEntries` and `PutUnique` |
| Registry.PutLookup | index.js:118 | after `set(name, sock)`, `get(name)` is `sock` and every other name gives what it gave before |
| Registry.PutNames | index.js:118 | `set` appends a new key to the iteration order and leaves the order unchanged for a present key |
| Registry.PutEntries | index.js:118 | after `set`, every entry is an old one or `name -> sock`, and `name -> sock` is present |
| Registry.PutUnique | index.js:118 | `set` keeps the keys unique |
| Registry.Delete | index.js:40 | `users.delete`; stated by `DeleteEntries`, `DeleteLookup`, `DeleteNames`, `DeleteAbsent`, `DeleteTwice` and `DeleteUnique` |
| Registry.DeleteEntries | index.js:40 | `delete(name)` keeps exactly the entries under other names |
| Registry.DeleteLookup | index.js:40 | after `delete(name)`, `get(name)` misses and every other name gives what it gave before |
| Registry.DeleteNames | index.js:40 | the keys after `delete(name)` are the old keys in the same order without `name` |
| Registry.DeleteAbsent | index.js:40 | deleting an absent key changes nothing |
| Registry.DeleteTwice | index.js:40 | deleting the same key twice is deleting it once |
| Registry.DeleteUnique | index.js:40 | `delete` keeps the keys unique |
| Registry.Without | index.js:38 | `sockets.delete`; stated by `WithoutMembers`, `WithoutNoDup`, `WithoutAbsent` and `WithoutTwice` |
| Registry.WithoutMembers | index.js:38 | `sockets.delete(x)` keeps exactly the other elements |
| Registry.WithoutNoDup | index.js:38 | `sockets.delete` keeps the elements distinct |
| Registry.WithoutAbsent | index.js:38 | deleting an absent socket changes nothing |
| Registry.WithoutTwice | index.js:38 | removing a socket twice is removing it once |
| Registry.Add | index.js:62 | `sockets.add`; stated by `AddKeeps` |
| Registry.AddKeeps | index.js:62 | `sockets.add(x)` keeps the elements distinct and adds exactly `x` |
| Delivery.Inbox | index.js:21-27 | the lines one client receives, in order; stated by `InboxAppend` and `InboxSnoc` |
| Delivery.InboxAppend | index.js:21-27 | a client's inbox over two stretches of the log is its inbox over each, in order |
| Delivery.InboxSnoc | index.js:21-27 | one `safeWrite` adds its line to its addressee's inbox and to no other |
| Delivery.Fanout | index.js:29-35 | every write of a broadcast carries the message and none goes to the excluded socket |
| Delivery.FanoutInbox | index.js:29-35 | over distinct sockets, a broadcast gives every socket except the excluded one exactly one copy, and gives nothing to anyone else |
| Delivery.UserList | index.js:137-140 | the writes of WHO; stated by `UserListInbox` |
| Delivery.UserLines | index.js:139 | one `USER` line per name |
| Delivery.UserListInbox | index.js:137-140 | WHO gives the asking client exactly one `USER <name>` per key, in the Map's order, and writes nothing to anyone else |
| Protocol.Connected | index.js:120 | the notice `INFO <name> connected`; what each client receives of it is stated by `Handlers.LoginInbox` |
| Protocol.Disconnected | index.js:41 | the notice `INFO <name> disconnected`; stated by `Handlers.CleanupInbox` and `Handlers.CleanupTwice` |
| Protocol.ChatLine | index.js:136 | the broadcast line `MSG <user> <text>`; stated by `Handlers.ChatInbox` |
| Protocol.DmLine | index.js:159 | the line `DM <from> <text>` to the target; stated by `Handlers.DmInbox` |
| Protocol.DmEcho | index.js:160 | the confirmation `DM <from> -> <target> <text>` to the sender; stated by `Handlers.DmInbox` |
| Protocol.Fields | index.js:102 | `line.split(' ')`; stated by `Text.SplitFieldsFree`, `Text.JoinSplit` and `ArgumentAfterFirstSpace` |
| Protocol.Verb | index.js:102-103 | the upper-cased first `' '`-separated token; stated by `VerbMatches` |
| Protocol.Argument | index.js:102-106 | `rest.join(' ')`; stated by `ArgumentAfterFirstSpace` |
| Protocol.DmTarget | index.js:142-143 | `rest[0]`, empty when missing; stated by `DmArgument` |
| Protocol.DmText | index.js:147 | `rest.slice(1).join(' ')`; stated by `DmArgument` |
| Protocol.ArgumentAfterFirstSpace | index.js:102-106 | the argument is the line after its first space, unchanged; a line without a space is all command word with an empty argument |
| Protocol.DmArgument | index.js:142-147 | for DM the argument is the target word, a space, then the text; the target word holds no space |
| Protocol.VerbMatches | index.js:103-105 | the command word matches `LOGIN` (or `PING`, `MSG`, `WHO`, `DM`) exactly when it spells that word in any mix of cases |
| Handlers.ConnectStep | index.js:61-69 | the `connection` handler; stated by `ConnectConsistent` and `Server.ChatServer.Connect` |
| Handlers.Shown | index.js:136 | `${sock._username}`: a name is shown as itself and `null` as `null`; stated by `ShownLoggedIn` |
| Handlers.RegisterStep | index.js:116-118 | `_loggedIn = true`, `_username = name`, `users.set(name, sock)`; stated by `RegisterConsistent`, `LoginRegisters` and `ProcessShape` |
| Handlers.BeforeLoginStep | index.js:104-128 | `processLine` before login; stated by `LoginInbox` for LOGIN and `BeforeLoginReply` for every other command word |
| Handlers.AfterLoginStep | index.js:130-165 | `processLine` after login; stated by `ChatInbox`, `WhoInbox`, `DmInbox` and `AfterLoginReply` |
| Handlers.LoginStep | index.js:105-120 | LOGIN before login; stated by `LoginInbox`, `LoginRegisters`, `ProcessShape` and `RegisterConsistent` |
| Handlers.ChatStep | index.js:131-136 | MSG; stated by `ChatInbox` and `ProcessShape` |
| Handlers.WhoStep | index.js:137-140 | WHO; stated by `WhoInbox` and `ProcessShape` |
| Handlers.DmStep | index.js:141-160 | DM; stated by `DmInbox`, `DmReachesTarget` and `ProcessShape` |
| Handlers.ProcessStep | index.js:100-166 | `processLine` neither adds nor removes a socket's state |
| Handlers.RunLines | index.js:76-83 | a run of `processLine` calls neither adds nor removes a socket's state |
| Handlers.WithBuffer | index.js:78 | `sock._buffer = ...`; stated by `ProcessWithBuffer`, `RunWithBuffer` and `WithBufferSame` |
| Handlers.DataStart | index.js:72-73 | the state the command lines of a `data` event are processed from: timer pending, the tail already buffered; stated by `DataBegin`, `DataFinish`, `DataStartArmed` and `DataStartLonger` |
| Handlers.DataStep | index.js:71-84 | the `data` handler; stated by `DataBuffer`, `DataConsistent` and `Server.ChatServer.Receive` |
| Handlers.CleanupStep | index.js:37-46 | `cleanupSocket`; stated by `CleanupInbox`, `CleanupTwice`, `CleanupConsistent` |
| Handlers.ExpireStep | index.js:51-57 | the idle timer's callback; stated by `ExpireConsistent` and `Server.ChatServer.IdleExpire` |
| Handlers.ShownLoggedIn | index.js:136 | under the invariant a logged-in socket is shown by its own non-empty name, never `null` |
| Handlers.LoginInbox | index.js:105-120 | a blank name gets `ERR invalid-username` and a taken name `ERR username-taken`, only to the sender; otherwise the sender gets `OK` and every other socket of the Set `INFO <name> connected` |
| Handlers.WelcomedInbox | index.js:119-120 | after a successful LOGIN the sender's inbox grows by `OK` and every other socket's by one connect notice |
| Handlers.LoginRegisters | index.js:116-118 | after a successful LOGIN, `get(name)` is the sender, every other name maps as before, and the sender's name is set |
| Handlers.ChatInbox | index.js:131-136 | an empty MSG text writes nothing; otherwise every socket of the Set, the sender's included, gets exactly one `MSG <user> <clean text>` and nobody else anything |
| Handlers.WhoInbox | index.js:137-140 | WHO adds to the asking socket's inbox one `USER <name>` per key of the Map in its order, and nothing to anyone else's |
| Handlers.DmInbox | index.js:141-160 | a missing target or empty text gets `ERR invalid-dm` and an unregistered target `ERR user-not-found`, only to the sender; otherwise the target gets `DM <from> <clean>` and the sender `DM <from> -> <target> <clean>`, and nobody else anything |
| Handlers.DmReachesTarget | index.js:153-159 | the socket a DM is delivered to is logged in under the target name |
| Handlers.BeforeLoginReply | index.js:121-127 | before login, a non-LOGIN line gets exactly one reply, to the sender: `PONG` for PING, `ERR not-logged-in` otherwise; nothing else changes |
| Handlers.AfterLoginReply | index.js:161-165 | after login, a line that is not MSG, WHO or DM gets exactly one reply, to the sender: `PONG` for PING, `ERR unknown-command` otherwise; nothing else changes |
| Handlers.ProcessShape | index.js:100-166 | apart from the writes it appends, `processLine` changes nothing, except that a LOGIN with a free non-blank name from a socket not logged in registers exactly that name |
| Handlers.OnlyLoginRegisters | index.js:104-128 | only a LOGIN before login changes the Map or a socket's state, and then only that socket's login fields |
| Handlers.ProcessKeepsLocals | index.js:100-166 | `processLine` changes neither the Set nor any buffer or timer, and only appends writes |
| Handlers.RunKeepsLocals | index.js:76-83 | any run of `processLine` changes neither the Set nor any buffer or timer, and only appends writes |
| Handlers.ProcessWithBuffer | index.js:100-166 | `processLine` neither reads nor writes the buffer: setting it before or after a line gives the same state |
| Handlers.RunStep | index.js:80-82 | one more complete line adds one `processLine` call on its normalised form, unless that form is empty |
| Handlers.FrameStep | index.js:76-83 | one turn of the loop, as values, takes the state over the lines taken off so far to the state over one more line |
| Handlers.DataBegin | index.js:72-73 | after the timer restart and the append, no line has been processed and the whole text is buffered |
| Handlers.DataFinish | index.js:76-84 | once every line is taken off and the tail is left buffered, the state is the `data` handler's result |
| Handlers.RunLinesAppend | index.js:76-83 | `processLine` over two runs of lines is `processLine` over the first run and then over the second |
| Handlers.RunWithBuffer | index.js:76-83 | any run of `processLine` commutes with setting the buffer |
| Handlers.DataStartArmed | index.js:72 | restarting a timer that already pends changes nothing but the buffer |
| Handlers.DataStartLonger | index.js:73 | a `data` event with a longer chunk starts from the same state except for the buffered tail |
| Handlers.DataChunks | index.js:71-84 | the whole server state after chunk `a` and then chunk `b` equals the state after `a + b` at once |
| Handlers.DataBuffer | index.js:73-78 | after a `data` event the buffer is the tail after the last `\n` of old buffer plus chunk, holds no `\n`, and the timer pends |
| Handlers.CleanupInbox | index.js:37-42 | a socket with a name makes every other socket of the Set receive `INFO <name> disconnected`; one without a name makes nobody receive anything |
| Handlers.CleanupRemoves | index.js:37-40 | the socket leaves the Set and every other member stays; a socket with a name takes that name out of the Map's keys, and every other key stays in order |
| Handlers.CleanupTwice | index.js:86-92 | a second `cleanupSocket` changes nothing but the log, and writes the disconnect notice again if the socket has a name |
| Handlers.LocalConsistent | index.js:72-73 | changing a socket's buffer or timer keeps the invariant |
| Handlers.ConnectConsistent | index.js:61-69 | a new connection gets an identity no socket had and keeps the invariant |
| Handlers.RegisterConsistent | index.js:116-118 | registering a free non-blank name for a socket not logged in keeps the invariant |
| Handlers.ProcessConsistent | index.js:100-166 | `processLine` keeps the invariant |
| Handlers.RunConsistent | index.js:76-83 | any run of `processLine` keeps the invariant |
| Handlers.DataConsistent | index.js:71-84 | the `data` handler keeps the invariant |
| Handlers.CleanupConsistent | index.js:37-46 | `cleanupSocket` keeps the invariant |
| Handlers.ExpireConsistent | index.js:51-57 | the idle timer's firing keeps the invariant |
| Server.ChatServer.constructor | index.js:17-19 | the server starts with no sockets, no users, no sessions and no writes |
| Server.ChatServer.SafeWrite | index.js:21-27 | the line is appended to the log for that socket and nothing else changes |
| Server.ChatServer.Broadcast | index.js:29-35 | the loop appends exactly `Fanout` over the Set in its order, skipping the excluded socket, and nothing else changes |
| Server.ChatServer.Connect | index.js:61-69 | the new state is `ConnectStep` of the old: a fresh socket joins the Set with an empty buffer, not logged in, no name and its timer running, and gets the welcome line; the invariant is kept |
| Server.ChatServer.Login | index.js:105-120 | the new state is `LoginStep` of the old |
| Server.ChatServer.Register | index.js:116-118 | the new state is `RegisterStep` of the old: the session is logged in under the name and `users` gets the entry |
| Server.ChatServer.Chat | index.js:131-136 | the new state is `ChatStep` of the old |
| Server.ChatServer.ListUsers | index.js:137-140 | the loop leaves the state `WhoStep` of the old |
| Server.ChatServer.DirectMessage | index.js:141-160 | the new state is `DmStep` of the old |
| Server.ChatServer.ProcessBeforeLogin | index.js:104-128 | the new state is `BeforeLoginStep` of the old |
| Server.ChatServer.ProcessAfterLogin | index.js:130-165 | the new state is `AfterLoginStep` of the old |
| Server.ChatServer.ProcessLine | index.js:100-166 | the new state is `ProcessStep` of the old |
| Server.ChatServer.ResetIdleTimer | index.js:48-59 | the socket's idle timer is pending again and nothing else changes |
| Server.ChatServer.AppendToBuffer | index.js:73 | the chunk is appended to the socket's buffer and nothing else changes |
| Server.ChatServer.NextLine | index.js:76-78 | the first complete line is taken off the buffer, the buffer keeps the other lines and the same tail and shrinks, and nothing else changes |
| Server.ChatServer.HandleLine | index.js:80-82 | the normalised line goes through `processLine` exactly when it is not empty, and an empty one changes nothing |
| Server.ChatServer.FrameNextLine | index.js:76-83 | one turn of the loop keeps its invariant: lines taken off plus lines still buffered are the lines of the received text, and the state is `processLine` run over the command lines taken off |
| Server.ChatServer.Receive | index.js:71-84 | the new state is `DataStep` of the old: the buffer is the tail after the last `\n` of old buffer plus chunk and holds no `\n`, the timer runs, and exactly `Commands(old buffer + chunk)` went through `processLine`, in order; the invariant is kept |
| Server.ChatServer.Cleanup | index.js:37-46 | the new state is `CleanupStep` of the old; the invariant is kept |
| Server.ChatServer.RemoveSocket | index.js:38 | the socket leaves the Set and nothing else changes |
| Server.ChatServer.Unregister | index.js:40 | the name leaves `users` and nothing else changes |
| Server.ChatServer.DisarmIdleTimer | index.js:43-45 | the socket's timer no longer pends and nothing else changes |
| Server.ChatServer.EndThenClose | index.js:86-92 | the new state is `CleanupStep` applied twice; `CleanupTwice` says the second run only repeats the disconnect notice |
| Server.ChatServer.IdleExpire | index.js:51-57 | the new state is `ExpireStep` of the old: the socket gets `INFO disconnected due to inactivity` and the timer no longer pends; the invariant is kept |

`Handlers.Consistent`, which `ChatServer.Valid()` states of the object's fields, is kept by every handler. It states:

- the Set holds distinct, known sockets;
- every known socket has an identity below `nextSid`;
- a socket is logged in exactly when it has a name, and a name is never empty;
- the keys of `users` are unique;
- every entry of `users` names a logged-in socket under that name.

## Left out

- Process plumbing is not modelled: `net.createServer`, `listen`, the port taken from the environment or the command line, `dotenv`, `os` and `console.log` (index.js:1-14, 168-170).
- The SIGINT shutdown handler (index.js:172-179) is not modelled. It is process signal handling and `server.close`.
- Timer scheduling is not modelled, because it is wall-clock behaviour. The idle timer is a flag that says whether a timer is pending. `IdleExpire` is the event of it firing.
  - `sock.end()` in the timer callback half-closes the socket. The `end` and `close` events follow once the peer closes its side, and each runs `Cleanup`. The model leaves their timing to the caller: until then the socket stays in `sockets` and `users` and keeps receiving broadcasts.
  - The constant `6000 * 1000` ms (index.js:5) plays no part in the model.
- Server.ChatServer.SafeWrite: does not model a write that throws. The code swallows the error and the write is lost, but the model always records it, because failures come from the socket library.
- Text encoding is not modelled: `setEncoding('utf8')` and the decoding of multi-byte characters split across chunks.
  - Strings here are sequences of Unicode scalar values.
  - JavaScript strings are UTF-16 code units, which differ only for characters outside the Basic Multilingual Plane.
- Text.Upper: upper-cases only `a`-`z`, dotless `ı` and long `ſ`, and keeps every other character. JavaScript's `toUpperCase()` also changes other letters, some into several characters. Those never produce one of the ASCII words `LOGIN`, `PING`, `MSG`, `WHO` and `DM`, which are the only values the result is compared with.
- Text.IsWhitespace: is the fixed set of ECMAScript WhiteSpace and LineTerminator code points of current engines. It is used alike for `trim()`, `\s` and the framer.
- The `error` event's argument is not modelled; that event runs the same `Cleanup` as `end` and `close` (index.js:94-97).
- The `sessions` map never removes a socket, because the socket object outlives its cleanup. The model therefore does not capture when a socket object is garbage-collected.
