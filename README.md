# SUBNET chat server: session registry, broadcast and command engine

This project models the core of the SUBNET terminal chat server (`subnet.py`)
in Dafny and proves properties of it. That core is:

- the registry of live connections (the `clients` dictionary) and the
  bounded broadcast history (the `history` deque);
- `broadcast`, `send_history` and `disconnect_writer`;
- the command router `handle_commands`, with its identity commands
  (`/register`, `/login`, `/logout`, `/nick`), `/who`, `/msg`, `/avatar`,
  `/clear`, `/help`, `/quit` and flood control for chat lines;
- the admission, greeting and teardown parts of `handle_client`.

The server runs as one sequential state machine. Each handler call runs to
completion before the next event. Sockets are replaced by a log of
deliveries (`sent`): a per-connection outbox is that log filtered by
connection. Each step takes as input the set of connections whose writes
fail in that step (`down`). A connection that has been closed never
receives anything again.

Layout, leaves first:

- `wrappers.dfy` (`Wrappers`): `Option`, and Python truthiness of an optional string.
- `config.dfy` (`Config`): the server's limits (200 clients, 200 history
  lines, 5 lines per second, window of 10, 3 strikes, 32-character nicks)
  and the banned names.
- `text.dfy` (`Text`): `strip()`, `split(maxsplit=2)`, `lower()` as the
  router can observe it, `str(n)` and the `%H:%M:%S` clock, with their
  round-trip and characterisation lemmas.
- `bounded.dfy` (`Bounded`): `deque(maxlen=n)` as a sequence, and the
  proof that it always holds the last `n` elements it was given.
- `identity.dfy` (`Identity`): the `Client` record and `safe_nick`.
- `flood.dfy` (`RateLimiter`): the flood rule on a client's timestamp window.
- `registry.dfy` (`Registry`): the shared state, and `broadcast` and
  `disconnect_writer` as mutually recursive functions.
- `broadcast_facts.dfy` (`BroadcastFacts`): what that recursion guarantees.
- `commands.dfy` (`Commands`): every branch of `handle_commands`.
- `command_facts.dfy` (`CommandFacts`): the order of each command's checks
  and what each success changes.
- `lifecycle.dfy` (`Lifecycle`): admission, greeting and history replay,
  one line read, end of stream, and runs of such events.
- `lifecycle_facts.dfy` (`LifecycleFacts`): admission, replay and teardown properties.
- `invariant.dfy` (`Invariants`): the invariant every reachable state keeps.
- `server.dfy` (`Server`): the class `Subnet`, whose fields are the
  server's shared state. Its methods update those fields in place, as the
  program does, with loops over the registry snapshot. Each method is
  proved to have exactly the effect of the function of the same name on
  `Abs()`.

Modelling decisions:

- Time is an integer number of milliseconds passed in with each event, so
  the source's "less than 1.0 second" is "less than 1000 ticks".
- The account store (`users.json`) is a map in the state, from name to a
  stored credential. Password checking is a predicate supplied by the
  environment (`Env.verify`). The credential that `hash_password` makes
  for a new account is also supplied (`Env.salted`), because its salt is random.
- `/avatar` receives what the image converter returned: an optional string.
- A reply to the issuing client that cannot be written raises out of the
  handler. The read loop of `handle_client` then tears the connection down
  with reason `connection-closed`. The model returns this as `raised`.
- A write to a connection that is already closed is treated as a failing write.
- `lower()` is exact on ASCII letters and on the KELVIN SIGN, the one
  non-ASCII character that lowers to an ASCII letter. Every comparison the
  source makes of a lower-cased string is against an ASCII constant (a
  banned name or a command keyword), so this gives the source's answer for
  each of them. All other name comparisons are exact and need no lowering.

Behaviour of the code worth noting:

- Flood test: the code compares the current time with the OLDEST of up
  to ten stored timestamps. It does not look at the span of the last five.
  `RateLimiter.OldestStampDecides` shows a burst of five lines within 400 ms
  that is not flagged.
- Chat is allowed without logging in. The code has no login-required mode.
- `/login` refuses an account that any registered client holds, the issuer
  included.
- `/logout` also clears the nickname and the strike count.
- `/msg` tells the sender "[PM to …]" even when delivery to the recipient
  failed. The failed recipient is disconnected.
- A joining client's arrival is broadcast to everyone, the joining client included.
- An account name is not checked against the banned names at login. Display
  names avoid banned names only when the account store held none to begin
  with (`Invariants.Reachable`).

## Model

| member | source | states |
|---|---|---|
| Identity.NewClient | subnet.py:91-103 | a new client has the given id, no nick, no account, no avatar, zero strikes and an empty window |
| Identity.SafeNick | subnet.py:105-110 | the display name is never empty and is the account name, the nickname or `User<id>` |
| Identity.SafeNickPriority | subnet.py:105-110 | the account wins over the nickname, and with neither set the name is `User<id>` |
| Identity.DefaultNamesDistinct | subnet.py:92-110 | two clients with different ids never share a default name |
| Identity.DefaultNameNotBanned | subnet.py:105-110 | a default name is never a banned name, in any case |
| Text.Strip | subnet.py:191 | the stripped line starts and ends with a non-blank, and is no longer than the input |
| Text.StripSlice | subnet.py:191 | stripping keeps exactly a contiguous slice of the line, with only blanks before and after it |
| Text.StripBlank | subnet.py:191-193 | the stripped line is empty exactly when the raw line was all blanks |
| Text.StripIdempotent | subnet.py:191 | stripping twice is stripping once |
| Text.SplitFields | subnet.py:197 | at most three fields; none exactly for a blank line; the first two are single words; the third starts with a non-blank and is a suffix of the line |
| Text.SplitOfJoined | subnet.py:197-200 | two words and a remainder, separated by any blanks, split back into exactly those three fields, inner blanks kept |
| Text.SplitOfTriple | subnet.py:197-200 | the same without leading blanks |
| Text.SplitOfPair | subnet.py:197-200 | two words split into two fields |
| Text.SplitOfWord | subnet.py:197-200 | a single word splits into one field |
| Text.Lower | subnet.py:198 | lower-casing keeps the length and maps each character by itself |
| Text.Take | subnet.py:281 | `s[:n]` is exactly the first `n` characters when `s` is longer, and all of `s` otherwise |
| Text.Decimal | subnet.py:110 | the rendering of a counter is a non-empty string of decimal digits |
| Text.DecimalRoundTrip | subnet.py:110 | reading back the rendering of `n` gives `n` |
| Text.DecimalInjective | subnet.py:110 | distinct ids render as distinct strings |
| Text.Pad2 | subnet.py:157 | a number below 100 is written as two decimal digits that read back as that number |
| Text.Clock | subnet.py:157 | the replay time is `HH:MM:SS`: two digits each, hours below 24 and minutes and seconds below 60, together the seconds elapsed since midnight UTC |
| Text.ClockIsTimeOfDay | subnet.py:157 | the replay time shows the time of day only: a day later it reads the same |
| Bounded.Last | subnet.py:155 | the last `n` elements, in order |
| Bounded.Push | subnet.py:48 | appending to a full deque drops its oldest element; the result ends with the new element and is the last `cap` of the old contents plus it |
| Bounded.PushAllKeepsRecent | subnet.py:48 | however many elements are appended, the deque holds exactly the most recent `cap`, oldest first |
| Bounded.LastWithin | subnet.py:155 | the last 5 of the last 200 are the last 5 |
| RateLimiter.Throttle | subnet.py:402-417 | the window gains the time; the line is a flood exactly when the window holds at least 5 stamps and its oldest is under 1000 ms old; a flood adds one strike, a slow line with a full enough window resets them, a short window leaves them |
| RateLimiter.WindowHoldsLatest | subnet.py:101 | whatever is sent, the window holds the times of the latest 10 chat lines, oldest first, and never more than 10 |
| RateLimiter.WindowFold | subnet.py:403 | flood control moves the window exactly as the deque does |
| RateLimiter.SlowSenderPasses | subnet.py:405-417 | a sender whose retained lines are at least 250 ms apart is never flagged, and its strikes reset once the window is long enough |
| RateLimiter.BurstIsFlagged | subnet.py:405-411 | five or more retained lines all within the last second are a flood and add a strike |
| RateLimiter.OldestStampDecides | subnet.py:405-407 | the test looks at the oldest stamp, not the fifth most recent: a 400 ms burst of five is not flagged while an old stamp remains |
| Registry.Without | subnet.py:182 | the writer is removed, every other entry is kept, and the registry shrinks by one when the writer was in it |
| Registry.WithoutKeepsOrder | subnet.py:182 | taking a connection out of the registry keeps every other connection in its order, as `dict.pop` keeps insertion order (which `/who` and the `/msg` scan rely on) |
| Registry.Send | subnet.py:142 | a write is logged exactly when it gets through; nothing else changes |
| Registry.Deliveries | subnet.py:138-145 | one delivery of the text per writer, in order |
| Registry.Reached | subnet.py:138-145 | the writers that receive a broadcast are exactly the registered ones that are not excluded and whose write succeeds |
| Registry.Failed | subnet.py:138-147 | the `dead` list is exactly the registered, non-excluded writers whose write fails |
| Registry.Broadcast | subnet.py:135-147 | a broadcast keeps every client record and only ever removes writers from the registry |
| Registry.DisconnectAll | subnet.py:146-147 | disconnecting the dead writers keeps every client record and only removes writers |
| Registry.Disconnect | subnet.py:168-184 | a disconnect keeps every client record and only removes writers; the recursion terminates because the registry shrinks |
| BroadcastFacts.BroadcastKeeps | subnet.py:135-147 | a broadcast touches neither the id counter nor the accounts; only writers whose writes failed leave the registry, and each of them is closed; after a broadcast without exclusion no failing writer remains |
| BroadcastFacts.DisconnectAllKeeps | subnet.py:146-147 | every dead writer is out of the registry afterwards, and only failing writers left |
| BroadcastFacts.DisconnectKeeps | subnet.py:168-184 | the writer is out of the registry afterwards; besides it, only failing writers left |
| BroadcastFacts.BroadcastLogs | subnet.py:135-147 | a broadcast logs its own line first and then exactly one departure line per writer lost; the history stays the last 200 lines of the log |
| BroadcastFacts.DisconnectAllLogs | subnet.py:146-147 | one departure line per writer lost; the history stays the tail of the log |
| BroadcastFacts.DisconnectLogs | subnet.py:168-184 | disconnecting a registered writer logs exactly one departure per writer lost |
| BroadcastFacts.DisconnectUnknown | subnet.py:168-170 | disconnecting a writer that is not registered does nothing at all: no write, no broadcast, no change |
| BroadcastFacts.BroadcastWrites | subnet.py:138-145 | the first writes of a broadcast are its line to each reachable writer, in registry order; earlier writes are never lost |
| BroadcastFacts.DisconnectAllWrites | subnet.py:146-147 | earlier writes are never lost |
| BroadcastFacts.DisconnectWrites | subnet.py:168-184 | earlier writes are never lost |
| BroadcastFacts.DisconnectIdempotent | subnet.py:168-184 | disconnecting twice is disconnecting once: the second call changes nothing |
| BroadcastFacts.DeliveredOnce | subnet.py:138-145 | over distinct writers, each writer receives the text once and no one else receives it |
| BroadcastFacts.FanOutOnce | subnet.py:138-145 | a broadcast writes its line exactly once to each registered, non-excluded writer whose write succeeds, and never to the excluded writer |
| BroadcastFacts.ReachedAll | subnet.py:138-145 | with no exclusion and no failures, everyone registered is reached, in order |
| BroadcastFacts.QuietBroadcast | subnet.py:135-147 | when no write fails, a broadcast only appends one history entry and writes the line to everyone but the excluded writer |
| BroadcastFacts.QuietDisconnect | subnet.py:168-184 | when no other write fails, a disconnect removes exactly that writer (others keep their order), closes it, and issues exactly one departure broadcast that everyone left receives |
| Commands.Reply | subnet.py:395-396 | a reply adds one write when the issuer's connection works and raises otherwise; nothing else changes |
| Commands.SetClient | subnet.py:222-224 | replacing a client record keeps the set of known connections |
| Commands.NickWanted | subnet.py:281 | the requested nickname is the stripped argument cut to its first 32 characters, and all of it when shorter |
| Commands.FirstNamed | subnet.py:317-318 | the index found is the first registered client shown under the name; none is found only when no registered client has that name |
| Commands.ParseCommand | subnet.py:196-200 | the command keyword is never empty and the first argument holds no blank |
| Commands.Register | subnet.py:203-229 | `/register` keeps the state well formed |
| Commands.Login | subnet.py:232-262 | `/login` keeps the state well formed |
| Commands.Logout | subnet.py:265-277 | `/logout` keeps the state well formed |
| Commands.Nick | subnet.py:280-298 | `/nick` keeps the state well formed |
| Commands.Msg | subnet.py:310-329 | `/msg` keeps the state well formed |
| Commands.Avatar | subnet.py:332-341 | `/avatar` keeps the state well formed |
| Commands.Chat | subnet.py:402-424 | a chat line keeps the state well formed |
| Commands.Dispatch | subnet.py:202-397 | every command branch keeps the state well formed |
| Commands.HandleLine | subnet.py:190-424 | handling a line keeps the state well formed |
| CommandFacts.BlankLineIsIgnored | subnet.py:191-193 | a blank line produces no output and no change |
| CommandFacts.CommandWithArguments | subnet.py:191-200 | with any surrounding and separating blanks, the keyword is lower-cased, the first argument is one word, and the second is the rest of the line with its inner blanks |
| CommandFacts.BareCommand | subnet.py:196-200 | a keyword alone gets two empty arguments |
| CommandFacts.CommandWithOneArgument | subnet.py:196-200 | a keyword and one word get an empty second argument |
| CommandFacts.UnknownCommandOnlyReplies | subnet.py:394-397 | an unrecognised command changes nothing and only sends "Unknown command" to the issuer |
| CommandFacts.NickRefusals | subnet.py:280-293 | after truncation, `/nick` refuses an empty name, then a banned name in any case, then a logged-in client; a refusal changes nothing but the reply |
| CommandFacts.NickAccepted | subnet.py:294-298 | an accepted `/nick` changes only the nickname, sends no reply (its outcome is the broadcast alone, never raised), and makes exactly one broadcast of its own, `* old now is new`; the client is then shown under the new name |
| CommandFacts.RegisterRefusals | subnet.py:203-218 | `/register` refuses a missing name or password, then a banned name in any case, then an existing name; a refusal changes nothing but the reply |
| CommandFacts.NameTestsAndCase | subnet.py:210-218 | the banned-name test ignores case and the existing-name test does not: `Alice` can be registered beside `alice` |
| CommandFacts.RegisterSucceeds | subnet.py:219-229 | success stores the account and logs the client in, with the nickname cleared and strikes zeroed, and announces `* user registered and logged in`; the last write is then the reply "Registered and logged in.", and the handler raises exactly when that reply cannot reach the client |
| CommandFacts.LoginRefusals | subnet.py:232-262 | `/login` refuses, in this order, missing arguments, an unknown user, an account a registered client holds, and a bad password; a refusal changes nothing but the reply |
| CommandFacts.NoSecondLoginToSameAccount | subnet.py:244-249 | a client logged in to an account cannot log in to it again |
| CommandFacts.LoginSucceeds | subnet.py:250-258 | success logs the client in, with the nickname cleared and strikes zeroed, and announces `* user logged in`; the last write is then the reply "Login successful.", and the handler raises exactly when that reply cannot reach the client |
| CommandFacts.LogoutOutcome | subnet.py:265-277 | when logged in, `/logout` clears the account, nickname and strikes and announces `* user logged out`, then replies "Logged out." as its last write, raising exactly when that reply cannot reach the client; otherwise it only replies "Not logged in." |
| CommandFacts.AvatarOutcome | subnet.py:331-340 | a rendered picture becomes the avatar and is acknowledged with "Avatar set successfully."; otherwise the reply is "Failed to load avatar." and nothing changes; only the avatar and that reply change, and the handler raises exactly when the reply cannot be written |
| CommandFacts.FloodedLine | subnet.py:405-414 | a flooded line is never broadcast; it adds a strike and warns the sender; below three strikes, or when the warning fails, nothing else happens |
| CommandFacts.ThirdStrike | subnet.py:408-414 | at the third strike the client leaves the registry, and its `flood` departure is the next line broadcast |
| CommandFacts.ChatLineBroadcast | subnet.py:415-424 | a line that is not a flood is broadcast under the sender's name |
| CommandFacts.ChatLineShape | subnet.py:419-422 | the chat line is `[sender] text`, with the avatar on the line above when one is set |
| CommandFacts.MsgFirstMatch | subnet.py:317-326 | `/msg` goes to the first registered client with that name, then the sender is told `[PM to …]` |
| CommandFacts.MsgNoMatch | subnet.py:327-329 | with no registered client under that name, only the sender hears "User not found." |
| CommandFacts.MsgToDeadRecipient | subnet.py:319-325 | a failed private delivery disconnects the recipient, and the sender is still told it was sent |
| Lifecycle.Replay | subnet.py:150-162 | an empty history replays nothing; otherwise a header, the last 5 entries with their times oldest first, and a footer |
| Lifecycle.WriteAll | subnet.py:449-452 | several writes and one drain: all arrive or none does |
| Lifecycle.WritesTo | subnet.py:449-452 | one delivery per payload, in order |
| Lifecycle.SendHistory | subnet.py:150-162 | sending the history changes nothing but the writes |
| Lifecycle.Admit | subnet.py:444-445 | admission appends the writer to the registry, adds one client shown as `User<id>` with the next id, zero strikes and an empty window, keeps every other client, and changes nothing else |
| Lifecycle.Greet | subnet.py:449-457 | the greeting is followed by the replay, and only writes change |
| Lifecycle.Connect | subnet.py:430-458 | connecting keeps the state well formed |
| Lifecycle.Receive | subnet.py:460-470 | one line read keeps the state well formed |
| Lifecycle.Hangup | subnet.py:467-470 | end of stream keeps the state well formed |
| Lifecycle.Initial | subnet.py:47-49 | the server starts with no connections, an empty history and the counter at 1 |
| Lifecycle.Step | subnet.py:428-470 | one event: a line or end of stream on a connection whose handler has returned (refused, failed at the welcome, torn down after a failed reply, or at end of stream) changes nothing; otherwise it is the admission, the line handled or the teardown, and the handler returns exactly on refusal, on a failed reply and at end of stream |
| Lifecycle.Run | subnet.py:428-470 | events handled one after another keep the state well formed, and a handler that has returned stays returned |
| LifecycleFacts.FullServerRefuses | subnet.py:431-442 | at 200 connections a new one is refused: no client is created, the counter does not move, the registry is unchanged, and only the refusal is written |
| LifecycleFacts.AdmissionAddsOne | subnet.py:444-445 | below 200, the connection gets the next id, exactly one client is added, and the registry gains at most that writer |
| LifecycleFacts.QuietAdmission | subnet.py:444-458 | when nothing fails, the newcomer is registered last and gets the greeting and the replay; its arrival is then broadcast to everyone, itself included |
| LifecycleFacts.ReplayIsRecent | subnet.py:150-158 | the replay shows the last 5 lines ever broadcast, oldest first |
| LifecycleFacts.ReplayOnlyWrites | subnet.py:150-162 | `send_history` changes nothing but the writes |
| LifecycleFacts.BlankLineChangesNothing | subnet.py:460-466 | a blank line from a connected client changes nothing at all |
| LifecycleFacts.FailedReplyEndsConnection | subnet.py:466-470 | a client whose reply cannot be written is no longer registered after the line |
| LifecycleFacts.HangupIdempotent | subnet.py:470 | ending a connection twice is ending it once |
| Invariants.ShrinkKeepsInv | subnet.py:135-184 | the broadcast/disconnect recursion keeps the server invariant |
| Invariants.BroadcastInv | subnet.py:135-147 | a broadcast keeps the invariant; the counter and accounts do not change |
| Invariants.DisconnectInv | subnet.py:168-184 | a disconnect keeps the invariant, and disconnecting the one client at three strikes restores it in full |
| Invariants.SetClientInv | subnet.py:222-224 | replacing a client record by one that keeps its id and the per-record rules keeps the invariant |
| Invariants.AddAccountInv | subnet.py:219-221 | adding an account keeps the invariant |
| Invariants.ReplyInv | subnet.py:395-396 | a reply keeps the invariant |
| Invariants.RegisterInv | subnet.py:203-229 | `/register` keeps the invariant, including one login per account |
| Invariants.NewAccountLoginInv | subnet.py:219-224 | creating an account nobody holds and logging the client in under it keeps the invariant, including one login per account |
| Invariants.SendInv | subnet.py:319-321 | one write to a client keeps the invariant |
| Invariants.LoginInv | subnet.py:232-262 | `/login` keeps the invariant, including one login per account |
| Invariants.LogoutInv | subnet.py:265-277 | `/logout` keeps the invariant |
| Invariants.NickInv | subnet.py:280-298 | `/nick` keeps the invariant; no nickname is ever banned |
| Invariants.MsgInv | subnet.py:310-329 | `/msg` keeps the invariant |
| Invariants.AvatarInv | subnet.py:332-341 | `/avatar` keeps the invariant |
| Invariants.ChatInv | subnet.py:402-424 | a chat line keeps the invariant; only a client whose flood warning failed may stay registered at three strikes, until its disconnect |
| Invariants.HandleLineInv | subnet.py:190-424 | every line handled keeps the invariant in that sense |
| Invariants.DispatchInv | subnet.py:202-397 | every command branch keeps the invariant |
| Invariants.ReceiveInv | subnet.py:460-470 | one line read, with the teardown a failed reply causes, keeps the invariant |
| Invariants.HangupInv | subnet.py:467-470 | end of stream keeps the invariant |
| Invariants.ConnectInv | subnet.py:430-458 | admission or refusal keeps the invariant: never more than 200 registered, ids unique |
| Invariants.AdmitInv | subnet.py:444-445 | registering under the next id keeps the invariant |
| Invariants.NoBannedDisplayName | subnet.py:105-110 | with no banned account names, no client is shown under a banned name |
| Invariants.InitialInv | subnet.py:47-49 | the starting server satisfies the invariant |
| Invariants.StepInv | subnet.py:430-470 | every event keeps the invariant; the counter never goes back and accounts are only added |
| Invariants.RunInv | subnet.py:430-470 | every state reached by a run satisfies the invariant; the counter never decreases; no banned account is ever created |
| Invariants.Reachable | subnet.py:47-49 | from a fresh server whose account store holds no banned names, every reachable state satisfies the invariant and no client is ever shown under a banned name |
| Server.Subnet.constructor | subnet.py:47-49 | the server object starts as the initial state and satisfies the invariant |
| Server.Subnet.Broadcast | subnet.py:135-147 | the in-place broadcast has exactly the effect of `Registry.Broadcast` |
| Server.Subnet.FanOut | subnet.py:137-145 | the write loop over the registry snapshot yields the successful writes in order and the `dead` list |
| Server.Subnet.DisconnectEach | subnet.py:146-147 | the loop over the `dead` list disconnects each writer in turn |
| Server.Subnet.Disconnect | subnet.py:168-184 | the in-place disconnect has exactly the effect of `Registry.Disconnect` |
| Server.Subnet.Reply | subnet.py:395-396 | one write to the issuer, raising when its connection fails |
| Server.Subnet.FindByName | subnet.py:317-318 | the scan for `/msg` finds the first registered client shown under the name |
| Server.Subnet.AuthHeld | subnet.py:245-249 | the scan for `/login` finds whether any registered client holds the account |
| Server.Subnet.Roster | subnet.py:302-305 | the `/who` reply lists every registered client, in registration order |
| Server.Subnet.Register | subnet.py:203-229 | in place, as `Commands.Register` |
| Server.Subnet.Login | subnet.py:232-262 | in place, as `Commands.Login` |
| Server.Subnet.Logout | subnet.py:265-277 | in place, as `Commands.Logout` |
| Server.Subnet.Nick | subnet.py:280-298 | in place, as `Commands.Nick` |
| Server.Subnet.Msg | subnet.py:310-329 | in place, as `Commands.Msg` |
| Server.Subnet.Avatar | subnet.py:332-341 | in place, as `Commands.Avatar` |
| Server.Subnet.Chat | subnet.py:402-424 | in place, as `Commands.Chat` |
| Server.Subnet.Dispatch | subnet.py:202-397 | in place, as `Commands.Dispatch` |
| Server.Subnet.HandleLine | subnet.py:190-200 | in place, as `Commands.HandleLine` |
| Server.Subnet.ReplayLines | subnet.py:153-159 | the replay lines are the header, each of the last 5 entries, and the footer |
| Server.Subnet.SendHistory | subnet.py:150-162 | in place, as `Lifecycle.SendHistory` |
| Server.Subnet.Connect | subnet.py:430-458 | in place, as `Lifecycle.Connect`, keeping the invariant |
| Server.Subnet.Receive | subnet.py:460-470 | in place, as `Lifecycle.Receive`, keeping the invariant |
| Server.Subnet.Hangup | subnet.py:467-470 | in place, as `Lifecycle.Hangup`, keeping the invariant |

## Left out

- PBKDF2 hashing and password verification (`hash_password`, `verify_password`): foreign `hashlib` calls with random salts. The model takes the new credential and the check as inputs.
- Reading and writing `users.json` (`load_users`, `save_users`): file system access. The account store is a map in the state.
- `ascii_avatar_from_image`: depends on PIL. `/avatar` receives the converter's optional result as an input.
- `/forum` and `/forum post`: they read and append a file. The command is recognised and changes nothing in the model; its replies are not modelled.
- Logging: it writes to a log file and has no effect on the server's state.
- The welcome banner's block-letter art and command summary (`WELCOME`, subnet.py:25-38): fixed text with no logic. The model's banner is its title line alone, so the first greeting write differs from the program's in its text only.
- Interleaving at `await` points: each handler call runs to completion before the next event.
- `drain()` back-pressure and `wait_closed()`: a write either gets through or fails, as the `down` input decides.
- The read loop's byte decoding and line reading, `main`, argument parsing and signal handling: transport and process plumbing. A line arrives already decoded.
- `datetime.utcnow()` floats: time is an integer number of milliseconds, given with each event.
- Commands.Register: its own contract states only that the state stays well formed; what `/register` does is stated by the `CommandFacts` and `Invariants` lemmas about it.
- Commands.Login: its own contract states only that the state stays well formed; what `/login` does is stated by the `CommandFacts` and `Invariants` lemmas about it.
- Commands.Logout: its own contract states only that the state stays well formed; what `/logout` does is stated by the `CommandFacts` and `Invariants` lemmas about it.
- Commands.Nick: its own contract states only that the state stays well formed; what `/nick` does is stated by the `CommandFacts` and `Invariants` lemmas about it.
- Commands.Msg: its own contract states only that the state stays well formed; what `/msg` does is stated by the `CommandFacts` and `Invariants` lemmas about it.
- Commands.Avatar: its own contract states only that the state stays well formed; what `/avatar` does is stated by `CommandFacts.AvatarOutcome` and `Invariants.AvatarInv`.
- Commands.Chat: its own contract states only that the state stays well formed; what a chat line does is stated by the `CommandFacts` and `Invariants` lemmas about it.
- Commands.Dispatch: its own contract states only that the state stays well formed; what each command branch does is stated by the `CommandFacts` and `Invariants` lemmas about it.
- Commands.HandleLine: its own contract states only that the state stays well formed; what `handle_commands` does is stated by the `CommandFacts` and `Invariants` lemmas about it.
- Lifecycle.Connect: its own contract states only that the state stays well formed; what admission does is stated by the `LifecycleFacts` and `Invariants` lemmas.
- Lifecycle.Receive: its own contract states only that the state stays well formed; what one line read does is stated by the `LifecycleFacts` and `Invariants` lemmas.
- Lifecycle.Hangup: its own contract states only that the state stays well formed; what end of stream does is stated by the `LifecycleFacts` and `Invariants` lemmas.
- Lifecycle.Step: after a client is disconnected while its handler still reads (by `/quit`, or by a failed write in someone else's broadcast), the event sequence decides whether further buffered lines or an end of stream arrive; the model accepts either order.
- Registry.Broadcast: its own contract states only what the broadcast/disconnect recursion needs; the rest is stated by the `BroadcastFacts` lemmas.
- Registry.DisconnectAll: its own contract states only what the broadcast/disconnect recursion needs; the rest is stated by the `BroadcastFacts` lemmas.
- Registry.Disconnect: its own contract states only what the broadcast/disconnect recursion needs; the rest is stated by the `BroadcastFacts` lemmas.
- The Java client (`client/SubnetClient.java`): a Swing user interface, not part of the server.
