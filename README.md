# Tile game server engine in Dafny

This project models the game engine of `server.js`, a real-time tile game
server. Its state is one board of sixteen tiles in four rows of four, each row
holding two +15000 tiles and two −15000 tiles. It also keeps an ordered list of
players who take turns, a current-player index, one selection counter per row,
a fixed table of user accounts and a map from socket ids to user ids. The socket
event handlers change this state step by step. The model states and proves what
they do:

- board generation with a Fisher–Yates shuffle;
- the guard sequence of tile selection and its exact effect;
- the circular turn rotation that skips blocked users;
- joining, leaving, resetting and the game-over test;
- the administrator handlers;
- the redacted board that every broadcast carries.

Layout:

- `common.dfy`: `Option`, `Result`, the first-match search of `findIndex` and `some`, and `splice`.
- `board.dfy`: tiles, `generateBoard`, `shuffleArray` (in place on a copied array), the row balance, `checkGameOver`, the redacted view.
- `accounts.dfy`: the user table, the `find` lookups (`getUserById` and the login lookup), the score and block updates on the table.
- `turns.dfy`: players, block flags, the circular scan of `startPlayerTurn` (a `while` loop) and its specification `Rotate`.
- `server.dfy`: the `GameServer` class. Its fields are the module-level state of `server.js` (`users`, `connectedSockets`, `gameState`) and its methods are the handlers, each proved to keep `Valid()`. `Valid()` requires:
  - a balanced board;
  - row counters in 0..2;
  - a current player exactly when there are players;
  - players with distinct ids that are all known users.

Time is the `now` parameter of each handler. The timers become events the environment calls:
- turn expiry calls `StartPlayerTurn`;
- the game-over reset calls `ResetGame`;
- the disconnect grace check calls `DisconnectGraceElapsed`.

`Math.random` in `shuffleArray` is any index `j` with `0 <= j <= i`, so the board properties hold for every shuffle.

The model follows `server.js` where the code and the intended design of the system differ:
- `selectTile` does not refuse administrators. A socket bound to a known user who is not a player may select whenever there is at most one player, because the turn check only applies with two or more.
- There is no automatic score lock, no `isConnected` flag, no per-player selection map and no persistence. Disconnecting only unbinds the socket; the player stays in the list.
- `toggleBlockUser` does not rotate the turn away from a player it blocks. A blocked current player keeps the turn until it expires, but every selection by that player is refused.
- Revealing the last tile sets the status to `gameover` and does not rotate the turn. A new board comes only from the delayed `resetGame`.
- In the all-blocked case, `startPlayerTurn` returns with `currentPlayerIndex` already advanced by one and the row counters reset, but with `currentPlayer` and `turnStartTime` unchanged.
- `leaveGame` does not re-clamp `currentPlayerIndex`, so `Valid()` makes no claim that the index is in range.
- After `leaveGame` removes a player before the current one, the index and `currentPlayer` can disagree, so the next rotation can give the same player two turns in a row although another player is unblocked (`Turns.RotationCanRepeatPlayer`).

## Model

| member | source | states |
|---|---|---|
| Board.ShuffleArray | server.js:107-114 | the shuffled copy has the input's length and exactly its elements (same multiset), for every choice of the random index at every step |
| Board.GenerateBoard | server.js:64-84 | the board is four rows of four, each row a rearrangement of two +15000 and two −15000 unrevealed tiles |
| Board.FreshBoardFacts | server.js:64-84 | a generated board has 16 tiles, none revealed, exactly two +15000 and two −15000 values per row, and eight of each in all |
| Board.CountWinningLosing | server.js:71-76 | in a row of winning and losing tiles, the number of +15000 values is the number of winning tiles, and likewise for losing ones |
| Board.RevealKeepsValues | server.js:475 | revealing a tile changes no value, so a board with two +15000 and two −15000 values in every row still has them after the reveal |
| Board.CheckGameOver | server.js:117-119 | `every(tile => tile.revealed)`: the game is over exactly when the number of revealed tiles equals the board size |
| Board.RevealCountsOnce | server.js:475 | revealing a hidden tile raises the number of revealed tiles by exactly one |
| Board.RedactBoard | server.js:153-156 | the view keeps every tile's `revealed` flag and the value is null exactly for the unrevealed tiles |
| Board.RedactionHidesHiddenValues | server.js:153-156 | two boards have the same redacted view if and only if they agree on which tiles are revealed and on the revealed values, so a hidden value cannot be read from a broadcast |
| Board.GameOverViewShowsAll | server.js:497-504 | at game over, the redacted view already shows every value, so the unredacted game-over broadcast exposes nothing hidden |
| Common.IndexOf | server.js:678 | the first position holding the element, and None exactly when it does not occur (also the `some` tests at lines 283 and 312 and the `findIndex` at line 375) |
| Common.RemoveAt | server.js:680 | `splice(k, 1)`: one element shorter, the elements before k kept, those after shifted down by one |
| Accounts.FindUser | server.js:122-124 | the first user with the id, and None exactly when no user has it |
| Accounts.FindByCredentials | server.js:274-276 | the first user whose username and password both match, and None exactly when no user matches both |
| Accounts.SameAccountsFindUser | server.js:122-124 | changing scores and block flags never changes which user an id finds |
| Accounts.SameAccountsFindByCredentials | server.js:274-276 | changing scores and block flags never changes which user a login finds |
| Accounts.AddScore | server.js:127-137 | user k's score rises by exactly the points; every other user and every identity field is unchanged |
| Accounts.ToggleBlocked | server.js:616 | user k's block flag flips; every other user and every other field is unchanged |
| Accounts.ToggleTwiceRestores | server.js:616 | toggling the same user twice restores the table |
| Accounts.RosterShape | server.js:33-45 | the initial table has distinct ids and exactly one administrator, `admin` |
| Turns.Blocked | server.js:208 | `getUserById(player.id).isBlocked`: a blocked player always has a user in the table with its id and the block flag set |
| Turns.BlockedIffFlagged | server.js:208 | with distinct user ids, a player is blocked exactly when the user carrying its id has the flag set |
| Turns.ScanFrom | server.js:203-215 | from offset d on the circular walk: the offset of the first unblocked player, with every player passed on the way blocked, or None when the rest of the lap is blocked |
| Turns.ScanFailsIffAllBlocked | server.js:203-215 | a full lap from any start finds no one exactly when every player is blocked |
| Turns.ScanPastBlocked | server.js:203-215 | skipping a run of blocked players does not change the outcome of the scan |
| Turns.FindUnblocked | server.js:201-215 | the loop returns the position ScanFrom describes: an unblocked player, or None exactly when every player is blocked |
| Turns.Rotate | server.js:174-259 | the specification of the turn fields after `startPlayerTurn`: unchanged with no players; index 0 and that player with one player; with more, an in-range index; if all are blocked, only the index advances by one; otherwise an unblocked current player at that index, with the turn starting now |
| Turns.AdvanceTurn | server.js:199-233 | the multi-player branch computes exactly `Rotate` |
| Turns.RotationSkipsOnlyBlocked | server.js:203-219 | the new current player is the FIRST unblocked one after the old index: every player the walk passes over is blocked |
| Turns.RotationMovesOn | server.js:199-219 | with two or more players and an unblocked player at another position, the index never stays where it was and lands on an unblocked player, also from an old index out of range; this is about the index, not the player (see the next row) |
| Turns.RotationCanRepeatPlayer | server.js:680-688 | a concrete state reached through `leaveGame`: with players [P2, P3], P3 current and the index left at 2, the rotation moves to index 1 and hands the turn to P3 again |
| Turns.WalkInjective | server.js:201-207 | within one lap the circular walk visits each position at most once |
| Server.GameServer.constructor | server.js:33-59 | the initial state: the fixed user table, no sockets, a generated board, no players, status `playing`, counters zero |
| Server.GameServer.StartPlayerTurn | server.js:174-259 | keeps `Valid()`, changes no user, socket, board or player, and sets the turn fields to `Rotate`; with players, the status is `playing` and the row counters are zero |
| Server.GameServer.ResetGame | server.js:140-171 | a freshly generated board, status `playing`, zero counters, then the rotation applied to index 0 and the first player; with no players, index 0 and the turn starting now |
| Server.GameServer.Login | server.js:273-301 | unknown credentials are refused, and so is a user already among the players; otherwise the socket is bound to the first matching user and that user's details are returned |
| Server.GameServer.JoinGame | server.js:304-408 | a socket that is unbound, or bound to an unknown user, an administrator or a blocked user, changes nothing. A new user is appended once, ids stay distinct, and the turn lands on an unblocked current player. A player already present only gets the new socket id, and the turn restarts if the game was over |
| Server.GameServer.AddPlayer | server.js:312-337 | the new-player branch: players grow by exactly this player, and the turn fields are `Rotate` from the old turn (or from the new player when there was none), landing on an unblocked player |
| Server.GameServer.Rebind | server.js:373-390 | the reconnect branch: only that player's socket id changes, and the turn restarts only when the status was not `playing` |
| Server.GameServer.SelectGuard | server.js:411-465 | the selection is accepted exactly when every one of the eight checks passes. An already revealed tile is always refused, so after a successful selection every later selection of the same index changes nothing until the next reset replaces the board |
| Server.GameServer.SelectTile | server.js:411-517 | a refused selection changes nothing. An accepted one reveals exactly that tile, raises exactly that row's counter by one, adds exactly the tile's value to exactly the caller's score, sets `gameover` when no hidden tile is left, and keeps every counter at most 2 |
| Server.GameServer.RevealTile | server.js:467-499 | the effect of an accepted selection on board, counters, scores and status, keeping `Valid()` |
| Server.GameServer.LeaveGame | server.js:673-713 | an unbound socket or a non-player changes nothing. Otherwise exactly the caller's entry is removed and the caller no longer appears. If the caller held the turn, the rest rotate. With nobody left, the current player is null |
| Server.GameServer.Disconnect | server.js:716-736 | the socket binding is dropped, the players stay, and the grace check is scheduled only when the user held the turn |
| Server.GameServer.DisconnectGraceElapsed | server.js:727-734 | the turn is restarted only if the user is bound to no socket again |
| Server.GameServer.UpdateUserScore | server.js:127-137 | a known id has its score raised by the points and the new score returned; an unknown id changes nothing and returns null |
| Server.GameServer.UpdatePoints | server.js:556-593 | non-administrators are refused, an unknown target is reported, otherwise only the target's score changes |
| Server.GameServer.ToggleBlockUser | server.js:596-652 | non-administrators are refused, an unknown target is reported, otherwise only the target's block flag flips |
| Server.GameServer.AdminResetGame | server.js:655-670 | non-administrators change nothing. Administrators get what `resetGame` does: a fresh board, status `playing`, zero counters, and the turn fields of index 0 with the first player at `now` followed by the rotation (index 0 with no current player when there are no players) |
| Server.GameServer.Broadcast | server.js:152-166 | the redacted `gameState` payload: the board is `RedactBoard` of the board, so no hidden value is sent; each player is sent with its id and the block flag of its user; the status is always sent as `playing`, even during game over; the current player, turn start time and counters are sent as they are |
| Server.AppendKeepsKnown | server.js:312-317 | appending a known user who is not yet a player keeps the player ids distinct and known |

## Left out

- Transport and I/O: socket.io, express, CORS, `server.listen`, the HTTP route, every `emit` and callback payload beyond the handler's result value. Console logging, including the distribution log of `generateBoard` (server.js:86-101).
- Timers: `setTimeout` and `clearTimeout` are not modelled. Their effect is the environment calling `StartPlayerTurn`, `ResetGame` or `DisconnectGraceElapsed` later; the one-player turn timer and the 500 ms pause are such calls too.
- `Math.random`: replaced by a nondeterministic index choice.
- The `test`, `syncScore` and `getPlayers` handlers: they only read state and reply.
- Non-integer and non-numeric `tileIndex` values: the model takes an integer index.
- Scores as JavaScript numbers: `user.score += points` (server.js:131 and server.js:480) works on doubles, and the server does not check that `points` is an integer or a number, so a string gives concatenation, a non-number gives NaN and large totals lose precision beyond 2^53. The model takes `points` and scores as unbounded integers; the exact score effects of `AddScore`, `UpdateUserScore`, `UpdatePoints` and `SelectTile` hold under that assumption.
- JavaScript truthiness of a socket's user id (`if (!userId)`): the model treats a bound socket as authenticated. Every id in the user table is a non-empty string, so the two readings agree for sockets that `login` bound.
- Object aliasing: `gameState.currentPlayer` is a copy of the player record in the model, not a reference. A reconnect that changes the socket id in the list is not seen through `currentPlayer`, which only the broadcast reads.
- Server.GameServer.JoinGame: the fallback that makes the first player current when there is no current player but the list is non-empty (server.js:386-390) is proved unreachable under `Valid()`, so the model has no effect for it.
- Server.GameServer.SelectTile: the game-over broadcast shows `currentPlayer: null` but leaves the state unchanged; the model, like the code, keeps the current player.
- Turns.Blocked: a player whose id is missing from the table reads as not blocked, where `getUserById(id).isBlocked` would throw. `Valid()` keeps every player a known user, so a reachable state never has such a player.
- Server.GameServer.Broadcast: the three `gameState` payloads of `joinGame` (server.js:343-356, 359-372, 393-406) carry no `turnStartTime`; the model sends one shared view that includes it.
