# Real-time chess: a Dafny model of the session coordinator and its helpers

This project models the core of a real-time two-player chess service. The
server keeps one room per game id. Each room records:

- which sockets are seated and with which colour (at most two players, one
  per colour);
- which sockets are watching;
- the per-side countdown clock and whose turn it is.

A fixed set of socket events drives the rooms: join, move relay, undo
answer, draw offer and answer, draw, surrender, time up and disconnect. A
one-second interval decrements the clock of the side to move. Each games
row persists the move history, the winner and the clock.

Beside the coordinator, the project models:

- the account routes of the server: registration and login validation,
  the profile and stats updates, the leaderboard limit, and the users
  table with its unique columns;
- the client's move-history table and PGN download;
- the client's socket wrapper: the joined game, keyed listeners and leaving;
- the client's authentication helpers: the token and user in local
  storage, authenticated requests, and the stats update after a game;
- the sign-in/sign-up form validation;
- the profile page's edit and save rules, win rate and badge colour;
- the admin page's game selection and deletion.

There is one module per source file:

| module | file | source |
|---|---|---|
| `JsText` | `js_text.dfy` | JavaScript string behaviour shared by all modules: truthiness, `trim` over `\s`, ASCII `toLowerCase`, `length` in UTF-16 code units, decimal rendering, Option/Result |
| `Patterns` | `patterns.dfy` | the e-mail and user-name regular expressions used by the server and the sign-up page |
| `GameServer` | `game_server.dfy` | `server/server.mjs`: class `Coordinator` over the room registry, the games rows and the emit log |
| `ServerAuth` | `server_auth.dfy` | `server/auth.mjs`: route validation as functions, class `UsersTable` for the table they write |
| `MoveHistory` | `move_history.dfy` | `client/components/movehistory.js` |
| `SocketManagerModel` | `socket_manager.dfy` | `client/components/utils/socketManager.js`: class `SocketManager` and the singleton slot |
| `AuthUtils` | `auth_utils.dfy` | `client/components/utils/authUtils.js`: class `AuthStore` over local storage |
| `AuthPage` | `auth_page.dfy` | `client/app/auth/page.js`: class `AuthForm` |
| `ProfilePage` | `profile_page.dfy` | `client/app/profile/page.js`: class `ProfileView` |
| `AdminPage` | `admin_page.dfy` | `client/app/admin/page.js`: class `AdminView` |

How each part is modelled:

- Every socket handler is one atomic method of `Coordinator`.
- An outbound emit is appended to the `log` field, with its target: one
  socket, the whole room, or the room except the sender.
- A database write updates the `records` map. An UPDATE on a missing row
  changes nothing.
- The interval is the explicit method `Tick`. Two booleans stand for the
  interval: `timerInterval` (the handle is set) and `ticking` (the interval
  still fires).
- On the client, a page's React state is a class whose fields the event
  handlers assign.
- Server replies, hash functions, token decoding and the clock are
  parameters of the operations that use them.
- A string is a sequence of code points. JavaScript's `length` counts
  UTF-16 code units, so every length rule uses `Utf16Length`, in which a
  code point above U+FFFF counts twice. PostgreSQL's VARCHAR widths count
  code points, so `FitsColumns` uses the plain length.

In these places the model follows the code as written:

- A seated white player who joins again while black is free is re-coloured
  black, and white becomes free (`RejoinRecolours`).
- `gameStarted` is never set to true, so the clock is reloaded from the
  games row on every join that completes a pair.
- `winner` is overwritten by every later end event; it is not write-once.
- The timeout path of the interval clears it but leaves the handle set.
  `startGameTimer` therefore refuses to start it again until
  `stopGameTimer` runs.
- A declined draw is broadcast to the whole room, sender included.
- The client-reported `timeUp` event does not stop the interval.
- Disconnect stops the interval of every room, not only the socket's. It
  deletes every room left without players, including rooms that still
  have spectators.
- `removeAllListeners` calls `socket.off(key, callback)` with the map key
  as the event name. A handler registered under a key other than its
  event name (the game page uses "gamePageTimerUpdate" for "timerUpdate")
  stays on the socket (`GamePageTimerHandlerSurvives`).
- `disconnect()` leaves `currentRole` as it was, so a later `joinGame` for
  the same game and role after a reconnect sends the join again only
  because `currentGameId` was reset.
- The profile page says a bio must be "less than 500" characters but
  accepts exactly 500. Its length checks are on the untrimmed name, so
  " a " passes the page and the server then rejects "a"
  (`PaddedShortNamePassesPageOnly`).
- The sign-up page accepts names of length over 100, which the server
  rejects (`LongNamePassesPageOnly`).
- Registration sets no upper limit on the e-mail address, but the column
  is VARCHAR(255). A valid address of 256 characters passes every check,
  then the INSERT fails and the route answers 500 (`LongEmailIsNotStored`, `UsersTable.Insert`,
  `UsersTable.RegisterRoute`).

## Model

| member | source | states |
|---|---|---|
| GameServer.WinnerAgainst | server/server.mjs:439 | the declared winner is black exactly when the loser string is "white"; any other string makes white the winner |
| GameServer.Timers.Set | server/server.mjs:683-685 | setting one side's seconds leaves the other side's seconds as they were |
| GameServer.ChooseColor | server/server.mjs:330-340 | a chosen colour is held by nobody; black is chosen only when white is held; no colour is chosen only when both are held |
| GameServer.SeatKeepsRoomInv | server/server.mjs:317-346 | seating a socket that passed the capacity check with the chosen colour keeps at most two players, every coloured socket a player and no colour held twice |
| GameServer.RejoinRecolours | server/server.mjs:324-346 | a lone white player who joins again is re-coloured black and white becomes free |
| GameServer.BothColoursHeld | server/server.mjs:333-340 | when both colours are held the room has exactly two players |
| GameServer.LoadClock | server/server.mjs:363-371 | a timed game's clock takes each side's persisted seconds when present, else time_limit*60; the turn defaults to white and started to false; an untimed game is unchanged |
| GameServer.StartTimer | server/server.mjs:676-680 | an interval is installed only when none is installed and the clock has started; nothing else changes |
| GameServer.StopTimer | server/server.mjs:726-732 | afterwards the interval neither fires nor has a handle; nothing else changes |
| GameServer.StopTimerIdempotent | server/server.mjs:726-732 | stopping a stopped clock changes nothing |
| GameServer.SwitchTurn | server/server.mjs:734-738 | a timed room's turn goes to the other side; an untimed room is unchanged |
| GameServer.TickRoom | server/server.mjs:680-708 | one firing takes exactly one second from the side to move and never below 0; the other side keeps its time; reaching 0 stops the firing but keeps the handle |
| GameServer.TickRecord | server/server.mjs:694-716 | after a firing both clocks are saved when the mover's time is a multiple of 10; at 0 the opposite side is recorded as winner; the history is untouched |
| GameServer.TickEmits | server/server.mjs:687-717 | a firing first broadcasts the clock after the decrement with the unchanged turn; when the mover reaches 0 it then broadcasts the opposite side's win by timeout, and otherwise nothing more |
| GameServer.Depart | server/server.mjs:633-636 | a departing player leaves the players and the colour map; everything else stays |
| GameServer.DisconnectRoom | server/server.mjs:632-664 | on disconnect a room loses the socket as player, colour holder and spectator, and its interval is stopped whether or not the socket was in it |
| GameServer.RemoveKeepsRoomInv | server/server.mjs:288-295 | taking a socket out of a room, on join clean-up or on disconnect, keeps the room invariant |
| GameServer.Snapshot | server/server.mjs:641-651 | the saved row holds the room's two clocks, turn and started flag, and keeps its history, winner and time limit |
| GameServer.DisconnectLeavesNoTrace | server/server.mjs:632-664 | after the disconnect loop the socket is in no room, and a room survives exactly when another player remains in it |
| GameServer.StatusEmitsLength | server/server.mjs:666-671 | the disconnect loop broadcasts one player status per visited room, to that room, in visiting order |
| GameServer.KeepIn | server/server.mjs:658-660 | the surviving registry order holds exactly the kept ids, no more than before |
| GameServer.KeepInDistinct | server/server.mjs:658-660 | deleting rooms keeps the registry order free of repeats |
| GameServer.SlotsOf | server/server.mjs:156-172 | the player count is the live room's number of players, 0 without a room; the free seats are 2 minus the count and never below 0; the game can be joined exactly when the count is below 2, which is exactly when a seat is free; the colour flags say which colours are held |
| GameServer.Evict | server/server.mjs:288-295 | the socket leaves the players, the colour map and the spectators; every other socket keeps its seat, colour and spectator status; the clock is untouched |
| GameServer.ClockEmits | server/server.mjs:373-378 | a timer update is broadcast exactly when seating loads the clock, and it carries the loaded clock's times and turn |
| GameServer.JoinState | server/server.mjs:398-434 | an accepted join sends the moves and result when the row exists, then the chat, both to the joining socket, then the room's occupancy to the room |
| GameServer.FirstMoveStart | server/server.mjs:522-526 | the first move of a timed game marks the clock started and installs an interval when none is installed; an untimed room or a started clock is unchanged; the times and turn are untouched |
| GameServer.MoveClockEmits | server/server.mjs:734-745 | a move in a timed room broadcasts its unchanged times with the turn passed to the other side; an untimed room broadcasts nothing |
| GameServer.MoveEmits | server/server.mjs:556-568 | a move sends the clock broadcast of a timed room, then the checkmate result to the room when a winner is claimed, otherwise the move to the other sockets |
| GameServer.Coordinator.PublicSlots | server/server.mjs:156-172 | the player count is the live room's player count or 0; it never exceeds 2, and count plus free seats is 2; joinable exactly when the count is below 2 |
| GameServer.WithClockKeepsRoomInv | server/server.mjs:348-384 | loading and resuming the clock keeps the room invariant and touches neither seats nor a running interval |
| GameServer.MoveClock | server/server.mjs:522-556 | after a move in a timed room the turn is flipped exactly once, the times are unchanged, the clock is marked started, and an interval is installed only if none was installed; an untimed room is unchanged |
| GameServer.MoveRecord | server/server.mjs:527-563 | a move appends exactly {move, fen} to the history, saves the clock as it stood before the turn passed, and records a claimed winner |
| GameServer.MoveEmitsSplit | server/server.mjs:556-568 | a move's emits are the clock broadcast followed by exactly one closing emit: the checkmate result to the room or the move to the other sockets |
| GameServer.MoveRecordWithWinner | server/server.mjs:559-563 | a claimed winner is the only difference a checkmate makes to the games row |
| GameServer.DisconnectRoomsStep | server/server.mjs:632-660 | visiting one more room in the disconnect loop drops or replaces only that room |
| GameServer.DisconnectRecordsStep | server/server.mjs:639-653 | visiting one more room changes at most that room's games row |
| GameServer.StatusEmitsStep | server/server.mjs:666-671 | visiting one more room appends exactly that room's status broadcast |
| GameServer.VisitReady | server/server.mjs:632-633 | the room the loop visits next is still live and as it was before the loop |
| GameServer.VisitRoomsStep | server/server.mjs:632-660 | one pass of LeaveRoom takes the rooms from the visit of the earlier ids to the visit of one more |
| GameServer.VisitRecordsStep | server/server.mjs:639-653 | one pass of LeaveRoom takes the games rows from the visit of the earlier ids to the visit of one more |
| GameServer.Coordinator.constructor | server/server.mjs:49 | the registry starts empty over the existing games rows |
| GameServer.Coordinator.StopGameTimer | server/server.mjs:726-732 | only the named room's interval is stopped |
| GameServer.Coordinator.SetWinner | server/server.mjs:440-443 | the winner column of an existing row is overwritten |
| GameServer.Coordinator.LeaveOtherRooms | server/server.mjs:288-295 | the joining socket leaves every other room in which it is a player; the invariant is kept |
| GameServer.Coordinator.InitTimers | server/server.mjs:348-389 | a complete pair in a timed game loads and broadcasts the clock and resumes an already started one |
| GameServer.Coordinator.SeatPlayer | server/server.mjs:316-346 | a third socket gets roomFull and changes nothing; otherwise the socket is seated with the first free colour, or gets roomFull when both colours are held |
| GameServer.Coordinator.SendJoinState | server/server.mjs:398-434 | an accepted join sends the moves and result, the chat, and the room's occupancy |
| GameServer.Coordinator.OpenRoom | server/server.mjs:300-306 | a room is created empty on first use, at the end of the registry order |
| GameServer.Coordinator.AddSpectator | server/server.mjs:310-314 | a spectator join is always accepted and adds the socket to the spectators only |
| GameServer.Coordinator.JoinGame | server/server.mjs:275-435 | the whole join: clean-up of other rooms, lazy creation, then spectator, rejected player or seated player, with the exact emits of each case |
| GameServer.Coordinator.TimeUp | server/server.mjs:437-448 | the side opposite the loser wins by timeout; rooms are untouched |
| GameServer.Coordinator.RespondToUndoMove | server/server.mjs:451-489 | an accepted undo with a position drops exactly the last move of a non-empty history; an empty history changes nothing; a refusal only notifies the others |
| GameServer.Coordinator.OfferDraw | server/server.mjs:492-495 | the offer is relayed to the others and changes nothing |
| GameServer.Coordinator.RespondToDraw | server/server.mjs:497-513 | an accept stops the clock and records a draw; a refusal changes nothing but the broadcast |
| GameServer.Coordinator.StartClockOnFirstMove | server/server.mjs:522-526 | the first move of a timed game starts its clock |
| GameServer.Coordinator.SaveClock | server/server.mjs:527-539 | a timed room's clock is written to its row |
| GameServer.Coordinator.AppendMove | server/server.mjs:540-554 | the entry is appended to an existing row's history |
| GameServer.Coordinator.SwitchGameTurn | server/server.mjs:734-745 | a timed room's turn flips and the clock is broadcast |
| GameServer.Coordinator.MoveMade | server/server.mjs:516-573 | the move relay as one step: room by MoveClock, row by MoveRecord, and either the checkmate result or the move to the others |
| GameServer.Coordinator.RecordMove | server/server.mjs:522-556 | the part of the relay every move goes through |
| GameServer.Coordinator.DrawGame | server/server.mjs:588-599 | the clock stops and a draw is recorded |
| GameServer.Coordinator.SurrenderGame | server/server.mjs:601-613 | the clock stops and the side opposite the loser is recorded as winner |
| GameServer.Coordinator.Tick | server/server.mjs:680-723 | only a firing interval with a started clock and time left acts, by TickRoom, TickRecord and TickEmits |
| GameServer.Coordinator.LeaveRoom | server/server.mjs:632-671 | one room of the disconnect loop: departure, clock save, stop, deletion when no player is left, status broadcast |
| GameServer.Coordinator.Disconnect | server/server.mjs:628-673 | the socket is removed from every room; exactly the rooms with another player survive; the invariant is kept |
| GameServer.Coordinator.VisitRooms | server/server.mjs:632-672 | the loop over the registry order applies LeaveRoom to each room once |
| JsText.TrimStart | server/auth.mjs:164-166 | the result is a suffix, every dropped character is whitespace, and it does not start with whitespace |
| JsText.TrimEnd | server/auth.mjs:164-166 | the result is a prefix, every dropped character is whitespace, and it does not end with whitespace |
| JsText.TrimNoSpace | server/auth.mjs:164-166 | trimming a string with no whitespace changes nothing |
| JsText.TrimIsTrimmed | server/auth.mjs:164-166 | a trimmed string starts and ends with a non-space, or is empty, and trimming it again changes nothing |
| JsText.ToLower | server/auth.mjs:137 | lower-casing keeps the length and maps each character on its own |
| JsText.ToLowerNoSpace | server/auth.mjs:165-166 | lower-casing never creates whitespace |
| JsText.NatToDecimal | client/components/movehistory.js:30 | the rendering of a number is non-empty, made of decimal digits, and has no leading zero unless the number is 0 |
| JsText.NatToDecimalValue | client/components/movehistory.js:30 | the digits of the rendering, read back in base 10, denote the number |
| JsText.IsSpace | server/auth.mjs:81 | the complete ECMAScript WhiteSpace and LineTerminator set that `\s` and `trim` use; each of these code points is one UTF-16 code unit |
| JsText.Trim | server/auth.mjs:164-166 | trimming never lengthens, and the result neither starts nor ends with whitespace |
| JsText.Utf16Length | server/auth.mjs:109 | the `length` of a string: between its number of code points and twice that |
| JsText.Utf16LengthBmp | server/auth.mjs:109 | when no code point is above U+FFFF the `length` is the number of code points |
| JsText.Utf16LengthSplit | server/auth.mjs:109 | the lengths of a prefix and the rest add up to the length of the string |
| JsText.Utf16LengthAppend | server/auth.mjs:109 | the length of a concatenation is the sum of the lengths |
| JsText.EmojiHasLengthTwo | server/auth.mjs:109 | U+1F600 is one code point with length 2 |
| JsText.TrimNoLonger | client/app/profile/page.js:130-131 | trimming never makes the length larger |
| Patterns.ValidUsernameIsPlain | server/auth.mjs:86-89 | a name matching the user-name pattern has no whitespace and no @ |
| Patterns.ValidEmailShape | server/auth.mjs:80-83 | an address matching the e-mail pattern has at least five characters and an @ |
| Patterns.EmailPatternIsWellFormed | server/auth.mjs:80-83 | an address matching the pattern has no whitespace, one @ with a non-empty part before it, and a dot in the part after it that is neither first nor last |
| Patterns.WellFormedEmailMatches | server/auth.mjs:80-83 | the converse: every such address matches the pattern |
| Patterns.EmailPatternCharacterised | server/auth.mjs:80-83 | both directions together |
| Patterns.ValidEmailTrimsToItself | server/auth.mjs:165 | a valid address is unchanged by trim, before and after lower-casing |
| Patterns.ValidUsernameTrimsToItself | server/auth.mjs:166 | a valid user name is unchanged by trim, before and after lower-casing |
| ServerAuth.Matching | server/auth.mjs:135-138 | the rows returned are exactly the rows with that email or user name |
| ServerAuth.ConflictField | server/auth.mjs:146-147 | the field is "email" exactly when the first clashing row has the lower-cased email, else "username" |
| ServerAuth.AllPresent | server/auth.mjs:98 | the request has all four fields truthy: none null, undefined or "" |
| ServerAuth.Register | server/auth.mjs:92-169 | each refusal happens exactly when every earlier check passed and its own fails, in the order presence, name length 2..100, email, user name, password length ≥ 6, lengths in UTF-16 code units; a conflict means a row shares the email or user name; registration never answers InsertFailed; success means no row does and gives the trimmed name, the lower-cased trimmed email and user name, and the hash |
| ServerAuth.RegisterAcceptsValid | server/auth.mjs:98-169 | the converse of the success clause: a request that passes every check and clashes with no row is accepted |
| ServerAuth.NoClashMatchesNothing | server/auth.mjs:135-138 | the duplicate query returns no row when no row holds the email or the user name |
| ServerAuth.RegisterConflictsOnClash | server/auth.mjs:140-151 | the converse of the duplicate clause: a request that passes every check and shares the email or user name with a row is refused as a duplicate |
| ServerAuth.ConflictOnFirstRow | server/auth.mjs:140-151 | a reported duplicate names the column of the first row the query returns |
| ServerAuth.LowerKeepsEmailValid | server/auth.mjs:80-83 | lower-casing keeps an address valid |
| ServerAuth.LowerKeepsUsernameValid | server/auth.mjs:86-89 | lower-casing keeps a user name valid |
| ServerAuth.StoredAccountIsNormalised | server/auth.mjs:164-166 | the stored email and user name are exactly the lower-cased inputs and still valid; the name is trimmed |
| ServerAuth.Login | server/auth.mjs:201-227 | missing credentials exactly when a field is falsy; success returns the first row whose email or user name equals the lower-cased, trimmed identifier, and only when the password verifies against that row's hash; no matching row means invalid credentials |
| ServerAuth.UsernameIsNoEmail | server/auth.mjs:80-89 | no string is both a valid user name and a valid e-mail address, so a login identifier matches at most one column |
| ServerAuth.NoRowMatches | server/auth.mjs:135-152 | when no row holds a valid address as its email, no row holds it on either column |
| ServerAuth.LoginFindsSoleMatch | server/auth.mjs:211-227 | when the normalised identifier matches exactly one row and its hash verifies, login returns that row |
| ServerAuth.RegisterThenLogin | server/auth.mjs:92-227 | after a registration's row is added, logging in with the same email and password returns that row |
| ServerAuth.UpdateProfile | server/auth.mjs:294-316 | a truthy name of length outside 2..100 and then a truthy bio of length over 500 (UTF-16 code units) are refused, each exactly then; a present field is stored trimmed, an absent one kept; nothing else changes |
| ServerAuth.BlankProfileNameIsStored | server/auth.mjs:300-315 | a name of three spaces passes the length rule and is stored as the empty string |
| ServerAuth.UpdateStats | server/auth.mjs:334-343 | every present counter replaces the stored one and every absent one is kept |
| ServerAuth.UpdateStatsIdempotent | server/auth.mjs:334-343 | an empty update changes nothing, and applying an update twice equals applying it once |
| ServerAuth.LeaderboardLimit | server/auth.mjs:359 | the limit is never above 50; it is 10 for a missing, unparsable or zero value, the parsed value up to 50, and 50 above |
| ServerAuth.Inserted | server/server.mjs:100-116 | the inserted row has the next id, the registration's values, an empty bio and the column defaults: no games and rating 1200 |
| ServerAuth.RowOf | server/auth.mjs:313-315 | the index found holds a row with that id; none is found only when no row has the id |
| ServerAuth.UsersTable.constructor | server/server.mjs:100-116 | the table starts empty and satisfies its constraints |
| ServerAuth.RegisteredFitsUnlessLongEmail | server/auth.mjs:20-38 | for an accepted registration with a hash of at most 255 characters, the values fit the columns exactly when the address has at most 255 characters |
| ServerAuth.NewAccountFits | server/auth.mjs:24-27 | a trimmed name of length at most 100, a valid user name and a short hash fit their columns, so only the address decides |
| ServerAuth.LongEmailIsNotStored | server/auth.mjs:24 | a valid address of more than 255 characters passes every registration check and does not fit its column |
| ServerAuth.LongEmailIsValid | server/auth.mjs:24 | an address of 256 characters, 252 letters then "@b.c", matches the e-mail pattern |
| ServerAuth.UsersTable.RegisterRoute | server/auth.mjs:92-198 | a refused registration changes nothing; an accepted one whose values fit the VARCHAR columns appends the inserted row; one that does not fit answers InsertFailed (status 500), adds no row and uses up the serial value; emails, user names and ids stay unique |
| ServerAuth.UsersTable.UpdateProfileRoute | server/auth.mjs:294-326 | a missing row gives no user; otherwise the profile rules decide and an accepted update replaces only that row; the constraints are kept |
| ServerAuth.UsersTable.ReplaceRow | server/auth.mjs:313-315 | writing back a row with the same email, user name and id keeps the constraints |
| ServerAuth.UsersTable.UpdateStatsRoute | server/auth.mjs:329-354 | only the user's row changes, and only its counters, by UpdateStats |
| ServerAuth.UsersTable.Insert | server/auth.mjs:159-169 | a row that fits the columns is appended under the next serial id and returned; one that does not fit fails with InsertFailed and adds no row; the serial advances either way and the constraints are kept |
| ServerAuth.RegisteredIsNew | server/auth.mjs:140-169 | an accepted registration's values carry a valid user name and clash with no row |
| ServerAuth.InsertKeepsInv | server/auth.mjs:159-169 | appending an accepted registration's row keeps emails, user names and ids unique |
| ServerAuth.AppendKeepsInv | server/server.mjs:100-104 | a row with a new email, a new valid user name and the next id may be appended without breaking the unique columns |
| ServerAuth.ReplaceKeepsInv | server/auth.mjs:313-315 | replacing a row without changing its keys keeps the constraints |
| ServerAuth.TableRegisterThenLogin | server/auth.mjs:159-227 | logging in right after registration through the table returns the inserted row |
| MoveHistory.At | client/components/movehistory.js:12-13 | the move at an index, or "" past the end |
| MoveHistory.MovePairs | client/components/movehistory.js:8-15 | there are ceil(n/2) rows; row k has number k+1, white move 2k and black move 2k+1 or "" |
| MoveHistory.PairsOfAt | client/components/movehistory.js:10-13 | row k holds number k+1 and moves 2k and 2k+1, or "" past the end |
| MoveHistory.PairsOfShift | client/components/movehistory.js:9-14 | dropping the first two moves drops the first row and keeps the moves of every later row |
| MoveHistory.Unpair | client/components/movehistory.js:9-14 | reading back gives at most two moves per row |
| MoveHistory.UnpairIgnoresNumbers | client/components/movehistory.js:11 | reading back depends only on the moves, not on the numbers |
| MoveHistory.UnpairPairs | client/components/movehistory.js:8-15 | when no move is empty, reading the rows back gives the moves again |
| MoveHistory.PairText | client/components/movehistory.js:30 | one row's text: the move number's digits, ". ", the two moves separated by a space, and a final space, so it starts with a digit and ends with a space |
| MoveHistory.PgnOf | client/components/movehistory.js:26-31 | the rows' texts in order; empty exactly when there are no rows, otherwise starting with a digit and ending with a space |
| MoveHistory.DownloadPgn | client/components/movehistory.js:24-33 | the text is the rows' "N. white black " texts concatenated in order, then trimmed |
| MoveHistory.PgnOfPrefix | client/components/movehistory.js:26-31 | each pass of the PGN loop appends exactly that row's text |
| MoveHistory.PgnStartsWithFirstRow | client/components/movehistory.js:26-31 | the untrimmed text begins with the first row's text |
| MoveHistory.PgnEmptyIffNoMoves | client/components/movehistory.js:26-33 | the PGN is empty exactly when there are no moves, and otherwise starts with "1. " and the first move |
| MoveHistory.FirstRowText | client/components/movehistory.js:27-30 | the first row's text begins with "1. " and the white move |
| MoveHistory.TrimKeepsLeadingNonSpace | client/components/movehistory.js:33 | a text that starts with a non-space does not trim to the empty string |
| SocketManagerModel.Off | client/components/utils/socketManager.js:101 | a handler not registered leaves the list; a registered one shortens it by one |
| SocketManagerModel.OffRemovesOne | client/components/utils/socketManager.js:101 | off removes exactly one registration of the handler and nothing else |
| SocketManagerModel.OffAll | client/components/utils/socketManager.js:111-118 | the loop of removeAllListeners only takes registrations away, at most one per key |
| SocketManagerModel.KeyedHandlers | client/components/utils/socketManager.js:113-115 | one (key, callback) pair per key, in key order |
| SocketManagerModel.OffAllRemovesKeyedHandlers | client/components/utils/socketManager.js:111-118 | removeAllListeners takes away exactly one registration of (key, callback) per key, and nothing else |
| SocketManagerModel.StrayHandlerSurvives | client/components/utils/socketManager.js:113-115 | a handler whose event is not one of the keys survives removeAllListeners |
| SocketManagerModel.GamePageTimerHandlerSurvives | client/components/utils/socketManager.js:113-115 | a "timerUpdate" handler stored under the key "gamePageTimerUpdate" is still registered afterwards |
| SocketManagerModel.MatchingKeysAreRemoved | client/components/utils/socketManager.js:133-139 | when each key names its event, as with the default keys, removeAllListeners removes all of them |
| SocketManagerModel.SocketManager.constructor | client/components/utils/socketManager.js:5-10 | no socket, no game, no listeners |
| SocketManagerModel.SocketManager.Connect | client/components/utils/socketManager.js:12-40 | a connected or connecting socket is kept; otherwise a new socket with no id and no handlers |
| SocketManagerModel.SocketManager.ConnectEvent | client/components/utils/socketManager.js:29-32 | the socket gets its id and the manager is connected |
| SocketManagerModel.SocketManager.DisconnectEvent | client/components/utils/socketManager.js:34-37 | the manager is no longer connected |
| SocketManagerModel.SocketManager.Disconnect | client/components/utils/socketManager.js:42-50 | with a socket: no socket, not connected, no game, no listeners; without one nothing changes; the role is kept |
| SocketManagerModel.SocketManager.Emit | client/components/utils/socketManager.js:105-109 | an event is sent only when there is a socket |
| SocketManagerModel.SocketManager.RemoveAllListeners | client/components/utils/socketManager.js:111-118 | with a socket, the handlers become OffAll of the old ones and the map is emptied |
| SocketManagerModel.SocketManager.LeaveGame | client/components/utils/socketManager.js:73-79 | with a socket and a current game, one leaveGame is emitted, the game is forgotten and the listeners removed; otherwise nothing |
| SocketManagerModel.SocketManager.JoinGame | client/components/utils/socketManager.js:52-71 | connects without a socket and keeps an existing one; a repeated join with the same game and role changes nothing; joining another game first leaves the old one and removes its listeners, otherwise the handlers and listeners are kept; then exactly one joinGame with the player id or the socket's id |
| SocketManagerModel.SocketManager.On | client/components/utils/socketManager.js:82-97 | connects without a socket and keeps an existing one; an existing key's old callback is taken off first; the callback is registered last; a key maps to exactly the new callback and a new key is added at the end of the key order; the game, role and sent events are unchanged |
| SocketManagerModel.SocketManager.OnTimerUpdate | client/components/utils/socketManager.js:133-135 | On for "timerUpdate" with the key defaulting to "timerUpdate": an existing socket is kept, the key's old callback is taken off "timerUpdate", the new one is registered last, the key maps to it and a new key joins the key order; the game, role and sent events are unchanged |
| SocketManagerModel.SocketManager.OnGameEnded | client/components/utils/socketManager.js:137-139 | On for "gameEnded" with the key defaulting to "gameEnded": an existing socket is kept, the key's old callback is taken off "gameEnded", the new one is registered last, the key maps to it and a new key joins the key order; the game, role and sent events are unchanged |
| SocketManagerModel.SocketManager.OffEvent | client/components/utils/socketManager.js:99-103 | with a socket, removes one registration of the callback; an undefined callback removes nothing; every other field is unchanged |
| SocketManagerModel.SocketManager.MakeMove | client/components/utils/socketManager.js:121-130 | sends isCheckmate = isGameEnd and winner is not "draw", the other fields unchanged; nothing else of the manager changes |
| SocketManagerModel.SocketManager.TimeUp | client/components/utils/socketManager.js:142-144 | sends timeUp with the game and loser when there is a socket; nothing else changes |
| SocketManagerModel.SocketManager.SendChatMessage | client/components/utils/socketManager.js:146-148 | sends chatMessage with the game, user and text when there is a socket; nothing else changes |
| SocketManagerModel.SocketManager.RequestUndoMove | client/components/utils/socketManager.js:150-152 | sends requestUndoMove with the game and player when there is a socket; nothing else changes |
| SocketManagerModel.SocketManager.RespondToUndoMove | client/components/utils/socketManager.js:154-156 | sends respondToUndoMove with the answer and position when there is a socket; nothing else changes |
| SocketManagerModel.SocketManager.DrawGame | client/components/utils/socketManager.js:158-160 | sends drawGame for the game when there is a socket; nothing else changes |
| SocketManagerModel.SocketManager.SurrenderGame | client/components/utils/socketManager.js:162-164 | sends surrenderGame with the game and loser when there is a socket; nothing else changes |
| SocketManagerModel.Singleton.constructor | client/components/utils/socketManager.js:167-172 | the slot starts empty |
| SocketManagerModel.Singleton.GetInstance | client/components/utils/socketManager.js:167-172 | the first call creates a fresh manager; every later call returns that same object |
| AuthUtils.Bump | client/components/utils/authUtils.js:94-97 | one counter of the update: the stored value or 0 when falsy, plus 1 exactly when the result is this counter's |
| AuthUtils.UpdatedStats | client/components/utils/authUtils.js:93-98 | the game count is the old count or 0, plus 1; wins, losses and draws each go up by 1 only for their result |
| AuthUtils.UpdatedStatsCountsOneResult | client/components/utils/authUtils.js:94-97 | the sum of wins, losses and draws goes up by exactly one exactly for "win", "loss" or "draw", and stays the same otherwise |
| AuthUtils.MergeUser | client/components/utils/authUtils.js:113 | every property the reply has wins; the others come from the stored user |
| AuthUtils.MergeUserExtremes | client/components/utils/authUtils.js:113 | a complete reply replaces the user; an empty reply changes nothing |
| AuthUtils.IsTokenExpired | client/components/utils/authUtils.js:152-162 | a missing token or an undecodable payload is expired; otherwise the token is expired exactly when exp is present and below now |
| AuthUtils.TokenExpiryIsMonotone | client/components/utils/authUtils.js:152-162 | once expired, a token stays expired at every later time |
| AuthUtils.CallerHeadersWin | client/components/utils/authUtils.js:58-68 | caller headers override the defaults, and defaults the caller does not set stay |
| AuthUtils.AuthStore.constructor | client/components/utils/authUtils.js:3-4 | storage holds what it held, no cookie, no requests |
| AuthUtils.AuthStore.GetUser | client/components/utils/authUtils.js:12-20 | a user exactly when the slot holds parseable JSON, and then the parsed user |
| AuthUtils.AuthStore.IsAuthenticated | client/components/utils/authUtils.js:23-27 | authenticated exactly when the token is truthy and a user parses |
| AuthUtils.AuthStore.SetAuthData | client/components/utils/authUtils.js:30-38 | both slots and the cookie are set; with a non-empty token the store is authenticated and returns that user |
| AuthUtils.AuthStore.ClearAuthData | client/components/utils/authUtils.js:41-48 | both slots and the cookie are removed and the store is not authenticated |
| AuthUtils.AuthStore.AuthenticatedFetch | client/components/utils/authUtils.js:51-82 | without a token nothing is sent and it fails; otherwise one request with the merged headers and credentials "include"; a 401 or 403 clears the auth data and fails |
| AuthUtils.AuthStore.UpdateUserStats | client/components/utils/authUtils.js:85-133 | no user, a falsy id or no token means no request, no result and no change; otherwise a PUT with UpdatedStats; a 401/403 clears the token, the user and the cookie; another failed reply changes nothing; a result is returned exactly on a 2xx reply and is stored merged, keeping the token and cookie |
| AuthUtils.AuthStore.Logout | client/components/utils/authUtils.js:136-149 | with a token, exactly one POST to the logout route with the default headers and no body is added after the earlier requests; the auth data is always cleared, whatever the request does |
| AuthUtils.AuthStore.RefreshUserData | client/components/utils/authUtils.js:165-177 | without a token nothing is sent or changed; otherwise one GET of /api/auth/me; a user is returned and stored exactly on a 2xx reply; a 401/403 clears the token, the user and the cookie; another failed reply changes nothing |
| AuthPage.FormData.With | client/app/auth/page.js:81 | the edited field takes the value and every other field is kept |
| AuthPage.FieldErrors | client/app/auth/page.js:41-67 | the checks before the password's never record a password error; login mode records at most the identifier's, sign-up mode never records it |
| AuthPage.FormErrors | client/app/auth/page.js:41-77 | per field and mode (lengths in UTF-16 code units), an error is recorded exactly when its rule fails, with the rule's message for each of the name, email, user name, identifier and password; login mode checks only the identifier and the password's presence |
| AuthPage.AcceptedSignUpPassesServerChecks | client/app/auth/page.js:41-77 | a sign-up the page accepts with a name of length at most 100 passes the server's validation, so registration either accepts it or reports a duplicate; an accepted one fits the columns exactly when the address has at most 255 characters |
| AuthPage.LongNamePassesPageOnly | client/app/auth/page.js:46-48 | a name of length 101 passes the page and is refused by the server |
| AuthPage.AuthForm.constructor | client/app/auth/page.js:16-31 | login mode, empty form, no errors, no message |
| AuthPage.AuthForm.ValidateForm | client/app/auth/page.js:41-77 | the stored errors are FormErrors of the mode and form, and the answer is true exactly when they are empty |
| AuthPage.AuthForm.FieldChecks | client/app/auth/page.js:41-67 | the checks before the password's record the name, email and user-name errors of sign-up mode, or the identifier error of login mode |
| AuthPage.AuthForm.HandleInputChange | client/app/auth/page.js:79-87 | the field takes the value; only that field's error, and only if truthy, becomes "" |
| AuthPage.AuthForm.SwitchMode | client/app/auth/page.js:163-174 | the mode flips; fields, errors and message are reset |
| AuthPage.EditClearsOnlyThatError | client/app/auth/page.js:84-86 | editing one field leaves every other field's error as it was |
| AuthPage.EmptyFormIsRejected | client/app/auth/page.js:41-77 | the empty form fails in both modes, with exactly the errors of that mode's required fields |
| ProfilePage.FloorDiv | client/app/profile/page.js:176 | the floor of a quotient for either sign of divisor |
| ProfilePage.WinRate | client/app/profile/page.js:174-177 | 0 without a user or games; otherwise the integer nearest to 100·wins/total, halves rounded up |
| ProfilePage.WinRateIsPercentage | client/app/profile/page.js:174-177 | with 0 ≤ wins ≤ games the rate is within 0..100, 100 when every game was won and 0 when none was |
| ProfilePage.BadgeColor | client/app/profile/page.js:161-172 | each ranked badge has its class; any other badge gets bg-gray-500 |
| ProfilePage.RankedBadgesHaveOwnColours | client/app/profile/page.js:161-172 | distinct ranked badges get distinct, non-grey classes |
| ProfilePage.SaveProblem | client/app/profile/page.js:98-118 | the first failing check in the order blank name, untrimmed length 2..100, bio length over 500 (UTF-16 code units), and none exactly when all pass |
| ProfilePage.AcceptedSaveAcceptedByServer | client/app/profile/page.js:98-132 | a save the page sends with a trimmed name of length at least two passes the server's profile checks |
| ProfilePage.PaddedShortNamePassesPageOnly | client/app/profile/page.js:104-131 | a single non-space character padded with one space on each side, such as " a ", passes the page and is refused by the server after trimming |
| ProfilePage.TrimPadded | client/app/profile/page.js:130 | trimming such a padded name leaves the single character |
| ProfilePage.PaddedLength | client/app/profile/page.js:104 | such a padded name has length 3 and the bare character length 1 |
| ProfilePage.ProfileView.constructor | client/app/profile/page.js:20-40 | no user, not editing, empty form and message |
| ProfilePage.ProfileView.HandleEdit | client/app/profile/page.js:82-88 | edit mode with the user's name and bio or ""; the user, the message, saving, the stored data and the requests are unchanged |
| ProfilePage.ProfileView.HandleCancel | client/app/profile/page.js:90-96 | edit mode left, name and bio restored; the user, the message, saving, the stored data and the requests are unchanged |
| ProfilePage.ProfileView.HandleSave | client/app/profile/page.js:98-159 | on a failed check only the message is set and nothing is sent; otherwise the trimmed name and bio are sent and the reply sets user, storage, mode and message |
| ProfilePage.ProfileView.Submit | client/app/profile/page.js:120-158 | one request; success stores the user and leaves edit mode; a refusal shows the server's error or a default; a network failure shows its own message |
| AdminPage.RemoveAll | client/app/admin/page.js:41 | the id is in no position of the result, and a list without it is unchanged |
| AdminPage.RemoveAllKeepsOthers | client/app/admin/page.js:41 | every other id keeps its number of occurrences |
| AdminPage.RemoveAllAppend | client/app/admin/page.js:41 | filtering a concatenation filters each part in place, so the other ids keep their order |
| AdminPage.Toggle | client/app/admin/page.js:38-44 | an absent id is appended at the end; a present one is removed everywhere |
| AdminPage.ToggleTwiceRestores | client/app/admin/page.js:38-44 | toggling an absent id twice restores the selection |
| AdminPage.ToggleSelectedTwiceMovesToEnd | client/app/admin/page.js:38-44 | toggling a present id twice moves it, once, to the end |
| AdminPage.AdminView.constructor | client/app/admin/page.js:9-14 | logged out, empty lists, no games counted |
| AdminPage.AdminView.FetchGames | client/app/admin/page.js:19-27 | an answer replaces the games and sets the count to its length; a failure changes nothing |
| AdminPage.AdminView.HandleLogin | client/app/admin/page.js:29-36 | login and a fetch happen exactly when both typed values equal the configured ones; an unset configuration value matches nothing; a matching login with an answer stores the games and their count, otherwise the games and count are kept; the typed values, the selection and the deletions are kept |
| AdminPage.AdminView.ToggleSelect | client/app/admin/page.js:38-44 | the selection becomes Toggle of the old one and nothing else changes |
| AdminPage.AdminView.DeleteGame | client/app/admin/page.js:46-49 | one DELETE; a refetch only when it succeeds, whose answer replaces the games and count; otherwise the games and count are kept; the selection, login and typed values are kept |
| AdminPage.AdminView.DeleteSelected | client/app/admin/page.js:51-59 | one DELETE per selected id; when all succeed the selection is empty and the games are refetched, an answer replacing the games and count; otherwise the selection, the fetch count, the games and the count stay; login and typed values are kept |

## Left out

- The socket.io transport, the joining and leaving of socket.io rooms (server/server.mjs:281-285, 311, 322) and the Express routes that only read or create games rows. The fan-out itself is not modelled; what is kept is the emit log with its targets.
- The chatMessage handler of the server (server/server.mjs:575-586). It inserts a chat row and relays the line, and touches no room state.
- Database failures and the ordering of queries across `await` points. Every handler is atomic, and a write to an existing row always succeeds. The catch blocks that only log are therefore unreachable in the model.
- `setInterval` scheduling. The interval is the explicit method `Tick`, which the environment may call for any room whose interval still fires.
- bcrypt hashing and comparison, JWT signing and decoding, uuid generation, `atob`/`JSON.parse` and `Date.now()`. These are parameters (`hash`, `compare`, `decode`, `now`) or left out.
- The `last_login` update and the token of the login and register replies: database timestamps and signing.
- JSON serialisation of local storage and request bodies is taken to be lossless. A stored property that is present but null is not distinguished from a missing one.
- Move legality, check and checkmate: the clients decide these and the server records what it is told.
- The sign-up page's `handleSubmit` (fetch, storage, redirect), the message-clearing timeout and the show-password toggle.
- The profile page's `loadUserData` and `formatDate`.
- The rendering of every page, including the move table's "Total moves" line. That line shows `moves.length` directly and has no logic.
- ProfilePage.WinRate: computed on exact rationals with halves rounded up. JavaScript computes `wins / total_games * 100` in floating point first, so a value that should be exactly a half can round either way.
- ProfilePage.BadgeColor: badge names that are keys of `Object.prototype` (such as "constructor") make the JavaScript lookup return a function rather than grey. The model gives them grey.
- AuthPage.FormErrors: the page's regular expressions are modelled on sequences of code points. Without the `u` flag JavaScript matches them on UTF-16 code units; `[^\s@]` accepts both halves of a surrogate pair, and `\s` (the complete ECMAScript WhiteSpace and LineTerminator set in `JsText.IsSpace`) lies in the Basic Multilingual Plane, so both readings accept the same strings.
- ServerAuth.ConflictField: the duplicate query (server/auth.mjs:141-144) has no ORDER BY, and the model takes its rows, and those of the login query (server/auth.mjs:212-215), in table order. `ConflictOnFirstRow` and `Login` inherit this choice; PostgreSQL returns an unspecified order.
- ServerAuth.Inserted: the `badge` and `created_at` columns (server/auth.mjs:34-35) and `last_login` are not fields of `Account`; only the columns the routes read back are modelled.
- JsText.ToLower: only ASCII letters are lower-cased. JavaScript's `toLowerCase` also maps non-ASCII letters.
- SocketManagerModel.SocketManager.Connect: the real socket connects asynchronously. The model has the "connect" and "disconnect" handlers as the separate methods ConnectEvent and DisconnectEvent.
- SocketManagerModel.SocketManager.OnTimerUpdate: `Option` does not tell `null` from `undefined`, so an explicit `null` key takes the default key here, where JavaScript's default parameter applies only to `undefined` and registers no key.
- AuthUtils.AuthStore.AuthenticatedFetch: every request gets a status; a `fetch` that rejects on a network error (client/components/utils/authUtils.js:72) is not a case of the model.
- AuthUtils.AuthStore.Logout: the redirect to /login (client/components/utils/authUtils.js:147) is browser navigation and is not modelled.
- ServerAuth.Register: the request fields are taken to be strings. A body field of another JSON type, such as a number for `name`, has no `trim` and makes the route throw; that path is not modelled.
- GameServer.Coordinator.Disconnect: the clock save on disconnect is fire-and-forget in the source (`.catch(console.error)`). The model applies it immediately.
