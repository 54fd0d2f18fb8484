/** The game engine of server.js: the module-level state (the user table, the
    map from socket ids to user ids, and `gameState`) and the handlers that
    change it step by step. Time is the `now` parameter of each handler; the
    timers of the source are the environment calling StartPlayerTurn (turn
    expiry), ResetGame (game over) and DisconnectGraceElapsed (disconnect). */
module Server {
  import opened Common
  import opened Board
  import opened Accounts
  import opened Turns

  type SocketId = string

  /** Milliseconds a turn lasts before a selection is refused. */
  const TurnMillis: int := 4000
  /** Selections allowed per row between two turn starts. */
  const MaxPerRow: nat := 2

  datatype Status = Playing | GameOver

  /** Why selectTile ignored a request, in the order the handler checks. */
  datatype Refusal = NotAuthenticated | UnknownUser | UserBlocked | NotYourTurn | TimeUp | OutOfRange | AlreadyRevealed | RowFull

  datatype SelectReply = Ignored(why: Refusal) | Revealed(value: int, newScore: int, gameOver: bool)

  datatype LoginError = BadCredentials | AlreadyPlaying
  datatype LoginInfo = LoginInfo(userId: string, username: string, score: int, isAdmin: bool, isBlocked: bool)

  datatype AdminError = NotAuthorized | UserNotFound

  datatype PlayerView = PlayerView(id: string, username: string, isBlocked: bool)
  datatype GameStateView = GameStateView(board: seq<TileView>, currentPlayer: Option<Player>, players: seq<PlayerView>,
                                         status: Status, turnStartTime: Option<int>, rowSelections: seq<nat>)

  /** `Date.now() - gameState.turnStartTime`. JavaScript turns a null start
      time into 0, so a turn that was never started has lasted as long as
      the clock reading itself. */
  function Elapsed(now: int, start: Option<int>): (e: int)
    ensures start.None? ==> e == now
    ensures start.Some? ==> start.value + e == now
  {
    now - (if start.Some? then start.value else 0)
  }

  function Zeros(): seq<nat> {
    [0, 0, 0, 0]
  }

  /** Four row counters, each at most MaxPerRow. */
  ghost predicate CountersInRange(rowSelections: seq<nat>) {
    |rowSelections| == RowCount && forall r :: 0 <= r < RowCount ==> rowSelections[r] <= MaxPerRow
  }

  /** The players have distinct ids, each the id of some user. */
  ghost predicate KnownPlayers(users: seq<User>, players: seq<Player>) {
    DistinctIds(players) && forall k :: 0 <= k < |players| ==> players[k].id in UserIds(users)
  }

  /** Score and block changes keep every player a known user. */
  lemma KnownPlayersStayKnown(users: seq<User>, users': seq<User>, players: seq<Player>)
    requires SameAccounts(users', users) && KnownPlayers(users, players)
    ensures KnownPlayers(users', players)
  {
    SameAccountsSameLookups(users', users);
  }

  /** A user who is not yet a player may be appended. */
  lemma AppendKeepsKnown(users: seq<User>, players: seq<Player>, p: Player)
    requires KnownPlayers(users, players)
    requires p.id in UserIds(users) && p.id !in PlayerIds(players)
    ensures KnownPlayers(users, players + [p])
    ensures PlayerIds(players + [p]) == PlayerIds(players) + [p.id]
  {
    assert forall j :: 0 <= j < |players| ==> PlayerIds(players)[j] == players[j].id;
    assert PlayerIds(players + [p]) == PlayerIds(players) + [p.id];
  }

  /** Changing a player's socket id keeps the ids. */
  lemma RebindKeepsKnown(users: seq<User>, players: seq<Player>, i: nat, sid: string)
    requires KnownPlayers(users, players) && i < |players|
    ensures KnownPlayers(users, players[i := players[i].(socketId := sid)])
    ensures PlayerIds(players[i := players[i].(socketId := sid)]) == PlayerIds(players)
  {
    assert PlayerIds(players[i := players[i].(socketId := sid)]) == PlayerIds(players);
  }

  class GameServer {
    var users: seq<User>
    var sockets: map<SocketId, string>
    var board: seq<Tile>
    var players: seq<Player>
    var currentPlayerIndex: nat
    var currentPlayer: Option<Player>
    var status: Status
    var turnStartTime: Option<int>
    var rowSelections: seq<nat>

    /** What every handler keeps: a balanced sixteen-tile board, four row
        counters each at most 2, a current player exactly when there are
        players, and players that are distinct known users. The current
        player need not be in the list, nor the index in range. */
    ghost predicate Valid()
      reads this
    {
      && Balanced(board)
      && CountersInRange(rowSelections)
      && (currentPlayer.Some? <==> |players| > 0)
      && KnownPlayers(users, players)
    }

    function TurnFields(): Turn
      reads this
    {
      Turn(currentPlayerIndex, currentPlayer, turnStartTime)
    }

    /** The effect of startPlayerTurn at time `now`. */
    twostate predicate TurnStarted(now: int)
      reads this
    {
      && users == old(users) && sockets == old(sockets) && board == old(board) && players == old(players)
      && TurnFields() == Rotate(BlockedFlags(users, players), players, old(TurnFields()), now)
      && (|players| == 0 ==> status == old(status) && rowSelections == old(rowSelections))
      && (|players| > 0 ==> status == Playing && rowSelections == Zeros())
    }

    /** The initial `gameState`, user table and socket map. */
    constructor ()
      ensures Valid()
      ensures users == Roster && sockets == map[] && FreshBoard(board)
      ensures players == [] && currentPlayerIndex == 0 && currentPlayer == None
      ensures status == Playing && turnStartTime == None && rowSelections == Zeros()
    {
      var b := GenerateBoard();
      FreshBoardFacts(b);
      users := Roster;
      sockets := map[];
      board := b;
      players := [];
      currentPlayerIndex := 0;
      currentPlayer := None;
      status := Playing;
      turnStartTime := None;
      rowSelections := Zeros();
    }

    /** The state a redacted `gameState` broadcast carries: the board redacted,
        each player with the block flag of its user, and the status always sent
        as `playing`, whatever the state's status is. No hidden value is sent,
        and the board part is RedactBoard, so RedactionHidesHiddenValues
        applies to every broadcast. */
    function Broadcast(): (v: GameStateView)
      reads this
      ensures v.board == RedactBoard(board)
      ensures |v.board| == |board| &&
        forall k :: 0 <= k < |board| ==> v.board[k].revealed == board[k].revealed && (v.board[k].value.None? <==> !board[k].revealed)
      ensures |v.players| == |players| &&
        forall k :: 0 <= k < |players| ==> v.players[k].id == players[k].id && v.players[k].isBlocked == Blocked(users, players[k])
      ensures v.status == Playing
      ensures v.currentPlayer == currentPlayer && v.turnStartTime == turnStartTime && v.rowSelections == rowSelections
    {
      var ps, us := players, users;
      var playerViews := seq(|ps|, k requires 0 <= k < |ps| => PlayerView(ps[k].id, ps[k].username, Blocked(us, ps[k])));
      GameStateView(RedactBoard(board), currentPlayer, playerViews, Playing, turnStartTime, rowSelections)
    }

    /** startPlayerTurn: with no players nothing happens; with one, that player
        is pinned at index 0; with more, the index moves to the first unblocked
        player after the old one, and if all are blocked the handler returns
        with the index advanced by one and the row counters already reset. */
    method StartPlayerTurn(now: int)
      requires Valid()
      modifies this`status, this`rowSelections, this`currentPlayerIndex, this`currentPlayer, this`turnStartTime
      ensures Valid()
      ensures TurnStarted(now)
    {
      var n := |players|;
      if n == 0 {
        return;
      }
      status := Playing;
      rowSelections := Zeros();
      if n == 1 {
        currentPlayerIndex := 0;
        currentPlayer := Some(players[0]);
        turnStartTime := Some(now);
      } else {
        var next := AdvanceTurn(users, players, TurnFields(), now);
        currentPlayerIndex, currentPlayer, turnStartTime := next.index, next.current, next.startedAt;
      }
    }

    /** resetGame: a new board, the turn fields and row counters cleared, then
        a turn started for the players present. */
    method ResetGame(now: int)
      requires Valid()
      modifies this`board, this`status, this`rowSelections, this`currentPlayerIndex, this`currentPlayer, this`turnStartTime
      ensures Valid()
      ensures FreshBoard(board)
      ensures users == old(users) && sockets == old(sockets) && players == old(players)
      ensures status == Playing && rowSelections == Zeros()
      ensures |players| == 0 ==> TurnFields() == Turn(0, None, Some(now))
      ensures |players| > 0 ==>
        TurnFields() == Rotate(BlockedFlags(users, players), players, Turn(0, Some(players[0]), Some(now)), now)
    {
      var b := GenerateBoard();
      FreshBoardFacts(b);
      board := b;
      status := Playing;
      currentPlayerIndex := 0;
      turnStartTime := Some(now);
      rowSelections := Zeros();
      if |players| > 0 {
        currentPlayer := Some(players[0]);
      }
      if |players| > 0 {
        StartPlayerTurn(now);
      }
    }

    /** The `login` handler: the first user with this username and password,
        refused when unknown or already among the players; on success the
        socket is bound to the user. */
    method Login(sid: SocketId, username: string, password: string) returns (r: Result<LoginInfo, LoginError>)
      requires Valid()
      modifies this`sockets
      ensures Valid()
      ensures FindByCredentials(users, username, password).None? ==>
        r == Err(BadCredentials) && sockets == old(sockets)
      ensures FindByCredentials(users, username, password).Some? ==>
        var u := users[FindByCredentials(users, username, password).value];
        if u.id in PlayerIds(players) then
          r == Err(AlreadyPlaying) && sockets == old(sockets)
        else
          r == Ok(LoginInfo(u.id, u.username, u.score, u.isAdmin, u.isBlocked)) && sockets == old(sockets)[sid := u.id]
    {
      var found := FindByCredentials(users, username, password);
      if found.None? {
        return Err(BadCredentials);
      }
      var u := users[found.value];
      if u.id in PlayerIds(players) {
        return Err(AlreadyPlaying);
      }
      sockets := sockets[sid := u.id];
      r := Ok(LoginInfo(u.id, u.username, u.score, u.isAdmin, u.isBlocked));
    }

    /** The socket is bound to a known user who is neither an administrator nor blocked. */
    predicate MayJoin(sid: SocketId)
      reads this
    {
      sid in sockets &&
      match FindUser(users, sockets[sid])
      case None => false
      case Some(k) => !users[k].isAdmin && !users[k].isBlocked
    }

    /** The new-player branch of `joinGame`: the player is appended, made
        current (at the last index) when there is no current player, and a
        turn is started; the new player is unblocked, so the turn lands on
        an unblocked player. */
    method AddPlayer(joined: Player, now: int)
      requires Valid()
      requires joined.id in UserIds(users) && joined.id !in PlayerIds(players) && !Blocked(users, joined)
      modifies this`players, this`status, this`rowSelections, this`currentPlayerIndex, this`currentPlayer, this`turnStartTime
      ensures Valid()
      ensures users == old(users) && sockets == old(sockets) && board == old(board)
      ensures players == old(players) + [joined]
      ensures status == Playing && rowSelections == Zeros()
      ensures var before := if old(currentPlayer).None? then Turn(|players| - 1, Some(joined), old(turnStartTime))
                            else old(TurnFields());
              TurnFields() == Rotate(BlockedFlags(users, players), players, before, now)
      ensures currentPlayerIndex < |players| && currentPlayer == Some(players[currentPlayerIndex])
      ensures !Blocked(users, players[currentPlayerIndex]) && turnStartTime == Some(now)
    {
      AppendKeepsKnown(users, players, joined);
      players := players + [joined];
      status := Playing;
      if currentPlayer.None? {
        currentPlayer := Some(players[|players| - 1]);
        currentPlayerIndex := |players| - 1;
      }
      assert !BlockedFlags(users, players)[|players| - 1];
      assert !AllBlocked(BlockedFlags(users, players));
      StartPlayerTurn(now);
    }

    /** The reconnect branch of `joinGame`: the player at index i gets the new
        socket id, and a turn is started if the game was over. */
    method Rebind(i: nat, sid: SocketId, now: int)
      requires Valid() && i < |players|
      modifies this`players, this`status, this`rowSelections, this`currentPlayerIndex, this`currentPlayer, this`turnStartTime
      ensures Valid()
      ensures users == old(users) && sockets == old(sockets) && board == old(board)
      ensures players == old(players)[i := old(players)[i].(socketId := sid)]
      ensures old(status) == Playing ==>
        TurnFields() == old(TurnFields()) && status == Playing && rowSelections == old(rowSelections)
      ensures old(status) != Playing ==>
        TurnFields() == Rotate(BlockedFlags(users, players), players, old(TurnFields()), now) &&
        status == Playing && rowSelections == Zeros()
    {
      RebindKeepsKnown(users, players, i, sid);
      players := players[i := players[i].(socketId := sid)];
      if status != Playing {
        status := Playing;
        StartPlayerTurn(now);
      }
      // Valid() keeps a current player whenever the list is non-empty,
      // so the source's fallback to the first player never runs.
      assert currentPlayer.Some? || |players| == 0;
    }

    /** The `joinGame` handler: refused unless the socket is bound to a known
        user who is neither an administrator nor blocked; then a new player
        is added, or a player already present is bound to this socket. */
    method JoinGame(sid: SocketId, now: int)
      requires Valid()
      modifies this`players, this`status, this`rowSelections, this`currentPlayerIndex, this`currentPlayer, this`turnStartTime
      ensures Valid()
      ensures users == old(users) && sockets == old(sockets) && board == old(board)
      ensures !old(MayJoin(sid)) ==> unchanged(this)
      ensures old(MayJoin(sid)) && old(sockets[sid]) !in old(PlayerIds(players)) ==>
        var uid := sockets[sid];
        var joined := Player(uid, users[FindUser(users, uid).value].username, sid);
        var before := if old(currentPlayer).None? then Turn(|old(players)|, Some(joined), old(turnStartTime))
                      else old(TurnFields());
        && players == old(players) + [joined]
        && status == Playing && rowSelections == Zeros()
        && TurnFields() == Rotate(BlockedFlags(users, players), players, before, now)
        && currentPlayerIndex < |players| && currentPlayer == Some(players[currentPlayerIndex])
        && !Blocked(users, players[currentPlayerIndex])
        && turnStartTime == Some(now)
      ensures old(MayJoin(sid)) && old(sockets[sid]) in old(PlayerIds(players)) ==>
        var i := IndexOf(old(PlayerIds(players)), sockets[sid]).value;
        && players == old(players)[i := old(players)[i].(socketId := sid)]
        && (old(status) == Playing ==>
              TurnFields() == old(TurnFields()) && status == Playing && rowSelections == old(rowSelections))
        && (old(status) != Playing ==>
              TurnFields() == Rotate(BlockedFlags(users, players), players, old(TurnFields()), now) &&
              status == Playing && rowSelections == Zeros())
    {
      if sid !in sockets {
        return;
      }
      var userId := sockets[sid];
      var found := FindUser(users, userId);
      if found.None? {
        return;
      }
      var user := users[found.value];
      if user.isAdmin || user.isBlocked {
        return;
      }
      var known := IndexOf(PlayerIds(players), userId);
      if known.None? {
        assert UserIds(users)[found.value] == userId;
        AddPlayer(Player(userId, user.username, sid), now);
      } else {
        Rebind(known.value, sid, now);
      }
    }

    /** The checks of the `selectTile` handler, in order: the first that fails,
        or None when the selection goes through. */
    function SelectGuard(sid: SocketId, tileIndex: int, now: int): (r: Option<Refusal>)
      reads this
      requires Valid()
      ensures r.None? <==>
        && sid in sockets
        && FindUser(users, sockets[sid]).Some?
        && !users[FindUser(users, sockets[sid]).value].isBlocked
        && (|players| > 1 ==> currentPlayer.value.id == sockets[sid])
        && Elapsed(now, turnStartTime) <= TurnMillis
        && 0 <= tileIndex < |board| && !board[tileIndex].revealed
        && rowSelections[RowOf(tileIndex)] < MaxPerRow
      ensures 0 <= tileIndex < |board| && board[tileIndex].revealed ==> r.Some?
    {
      if sid !in sockets then Some(NotAuthenticated)
      else match FindUser(users, sockets[sid])
        case None => Some(UnknownUser)
        case Some(k) =>
          if users[k].isBlocked then Some(UserBlocked)
          else if |players| > 1 && currentPlayer.value.id != sockets[sid] then Some(NotYourTurn)
          else if Elapsed(now, turnStartTime) > TurnMillis then Some(TimeUp)
          else if tileIndex < 0 || tileIndex >= |board| then Some(OutOfRange)
          else if board[tileIndex].revealed then Some(AlreadyRevealed)
          else if rowSelections[RowOf(tileIndex)] >= MaxPerRow then Some(RowFull)
          else None
    }

    /** The effect of a selection that passed every check of `selectTile`:
        the row counter rises by one, the tile is revealed, its value is added
        to the score of user k, and the game is over when no hidden tile is
        left. */
    method RevealTile(k: nat, tileIndex: nat) returns (value: int, newScore: int, over: bool)
      requires Valid() && k < |users| && tileIndex < |board| && !board[tileIndex].revealed
      requires rowSelections[RowOf(tileIndex)] < MaxPerRow
      modifies this`board, this`rowSelections, this`users, this`status
      ensures Valid()
      ensures value == old(board)[tileIndex].value
      ensures board == old(board)[tileIndex := old(board)[tileIndex].(revealed := true)]
      ensures rowSelections == old(rowSelections)[RowOf(tileIndex) := old(rowSelections)[RowOf(tileIndex)] + 1]
      ensures users == AddScore(old(users), k, value) && newScore == users[k].score
      ensures over == CheckGameOver(board) && status == (if over then GameOver else old(status))
    {
      var row := RowOf(tileIndex);
      rowSelections := rowSelections[row := rowSelections[row] + 1];
      RevealKeepsValues(board, tileIndex);
      board := board[tileIndex := board[tileIndex].(revealed := true)];
      value := board[tileIndex].value;
      var oldUsers := users;
      users := AddScore(users, k, value);
      KnownPlayersStayKnown(oldUsers, users, players);
      newScore := users[k].score;
      over := CheckGameOver(board);
      if over {
        status := GameOver;
      }
    }

    /** The `selectTile` handler. A request that fails a check changes
        nothing; one that passes reveals the tile, counts it in its row, adds
        its value to the selecting user's score, and marks the game over when
        no hidden tile is left. */
    method SelectTile(sid: SocketId, tileIndex: int, now: int) returns (reply: SelectReply)
      requires Valid()
      modifies this`board, this`rowSelections, this`users, this`status
      ensures Valid()
      ensures old(SelectGuard(sid, tileIndex, now)).Some? ==>
        reply == Ignored(old(SelectGuard(sid, tileIndex, now)).value) && unchanged(this)
      ensures old(SelectGuard(sid, tileIndex, now)).None? ==>
        && 0 <= tileIndex < |board|
        && var k := FindUser(old(users), old(sockets)[sid]).value;
           var v := old(board)[tileIndex].value;
           var row := RowOf(tileIndex);
           && !old(board)[tileIndex].revealed
           && board == old(board)[tileIndex := old(board)[tileIndex].(revealed := true)]
           && rowSelections == old(rowSelections)[row := old(rowSelections)[row] + 1]
           && users == AddScore(old(users), k, v)
           && status == (if CheckGameOver(board) then GameOver else old(status))
           && reply == Revealed(v, users[k].score, CheckGameOver(board))
    {
      var why := SelectGuard(sid, tileIndex, now);
      if why.Some? {
        return Ignored(why.value);
      }
      var k := FindUser(users, sockets[sid]).value;
      var value, newScore, over := RevealTile(k, tileIndex);
      reply := Revealed(value, newScore, over);
    }

    /** The `leaveGame` handler: the caller's entry is spliced out; if it held
        the turn, a turn is started for the others; with nobody left the
        current player is cleared. The index is not re-clamped. */
    method LeaveGame(sid: SocketId, now: int)
      requires Valid()
      modifies this`players, this`status, this`rowSelections, this`currentPlayerIndex, this`currentPlayer, this`turnStartTime
      ensures Valid()
      ensures users == old(users) && sockets == old(sockets) && board == old(board)
      ensures sid !in old(sockets) || old(sockets[sid]) !in old(PlayerIds(players)) ==> unchanged(this)
      ensures sid in old(sockets) && old(sockets[sid]) in old(PlayerIds(players)) ==>
        var uid := sockets[sid];
        var i := IndexOf(old(PlayerIds(players)), uid).value;
        var rest := RemoveAt(old(players), i);
        var wasCurrent := old(currentPlayer).Some? && old(currentPlayer).value.id == uid;
        && old(players)[i].id == uid
        && players == rest
        && uid !in PlayerIds(players)
        && (|rest| == 0 ==> currentPlayer == None && currentPlayerIndex == old(currentPlayerIndex) &&
                            turnStartTime == old(turnStartTime) && status == old(status) && rowSelections == old(rowSelections))
        && (|rest| > 0 && wasCurrent ==>
              TurnFields() == Rotate(BlockedFlags(users, rest), rest, old(TurnFields()), now) &&
              status == Playing && rowSelections == Zeros())
        && (|rest| > 0 && !wasCurrent ==>
              TurnFields() == old(TurnFields()) && status == old(status) && rowSelections == old(rowSelections))
    {
      if sid !in sockets {
        return;
      }
      var userId := sockets[sid];
      var found := IndexOf(PlayerIds(players), userId);
      if found.None? {
        return;
      }
      var i := found.value;
      ghost var before := players;
      players := RemoveAt(players, i);
      forall j | 0 <= j < |players| ensures players[j].id != userId {
        if j < i {
          assert before[j].id != before[i].id;
        } else {
          assert before[j + 1].id != before[i].id;
        }
      }
      if currentPlayer.Some? && currentPlayer.value.id == userId {
        if |players| > 0 {
          StartPlayerTurn(now);
        }
      }
      if |players| == 0 {
        currentPlayer := None;
      }
    }

    /** The `disconnect` handler: the socket binding is dropped. When the user
        held the turn, the result names the user whose grace check the
        environment may later fire. */
    method Disconnect(sid: SocketId) returns (graceFor: Option<string>)
      requires Valid()
      modifies this`sockets
      ensures Valid()
      ensures sid !in old(sockets) ==> sockets == old(sockets) && graceFor == None
      ensures sid in old(sockets) ==>
        sockets == old(sockets) - {sid} &&
        graceFor == (if currentPlayer.Some? && currentPlayer.value.id == old(sockets[sid]) then Some(old(sockets[sid])) else None)
    {
      graceFor := None;
      if sid in sockets {
        var userId := sockets[sid];
        sockets := sockets - {sid};
        if currentPlayer.Some? && currentPlayer.value.id == userId {
          graceFor := Some(userId);
        }
      }
    }

    /** The delayed check after the current player disconnected: a turn is
        started unless the user is bound to some socket again. */
    method DisconnectGraceElapsed(userId: string, now: int)
      requires Valid()
      modifies this`status, this`rowSelections, this`currentPlayerIndex, this`currentPlayer, this`turnStartTime
      ensures Valid()
      ensures userId in old(sockets).Values ==> unchanged(this)
      ensures userId !in old(sockets).Values ==> TurnStarted(now)
    {
      if userId !in sockets.Values {
        StartPlayerTurn(now);
      }
    }

    /** The socket is bound to a known administrator. */
    predicate IsAdmin(sid: SocketId)
      reads this
    {
      sid in sockets &&
      match FindUser(users, sockets[sid])
      case None => false
      case Some(k) => users[k].isAdmin
    }

    /** updateUserScore: adds `points` to the score of the user with this id
        and returns the new score, or None when there is no such user. */
    method UpdateUserScore(id: string, points: int) returns (newScore: Option<int>)
      requires Valid()
      modifies this`users
      ensures Valid()
      ensures FindUser(old(users), id).None? ==> newScore == None && users == old(users)
      ensures FindUser(old(users), id).Some? ==>
        var k := FindUser(old(users), id).value;
        users == AddScore(old(users), k, points) && newScore == Some(users[k].score)
    {
      var found := FindUser(users, id);
      if found.None? {
        return None;
      }
      var oldUsers := users;
      users := AddScore(users, found.value, points);
      KnownPlayersStayKnown(oldUsers, users, players);
      newScore := Some(users[found.value].score);
    }

    /** The `updatePoints` handler: administrators only, for a known target. */
    method UpdatePoints(sid: SocketId, targetId: string, points: int) returns (r: Result<(), AdminError>)
      requires Valid()
      modifies this`users
      ensures Valid()
      ensures !old(IsAdmin(sid)) ==> r == Err(NotAuthorized) && users == old(users)
      ensures old(IsAdmin(sid)) && FindUser(old(users), targetId).None? ==> r == Err(UserNotFound) && users == old(users)
      ensures old(IsAdmin(sid)) && FindUser(old(users), targetId).Some? ==>
        r == Ok(()) && users == AddScore(old(users), FindUser(old(users), targetId).value, points)
    {
      if !IsAdmin(sid) {
        return Err(NotAuthorized);
      }
      if FindUser(users, targetId).None? {
        return Err(UserNotFound);
      }
      var _ := UpdateUserScore(targetId, points);
      r := Ok(());
    }

    /** The `toggleBlockUser` handler: administrators only, for a known target,
        whose block flag flips. The turn is left as it is. */
    method ToggleBlockUser(sid: SocketId, targetId: string) returns (r: Result<(), AdminError>)
      requires Valid()
      modifies this`users
      ensures Valid()
      ensures !old(IsAdmin(sid)) ==> r == Err(NotAuthorized) && users == old(users)
      ensures old(IsAdmin(sid)) && FindUser(old(users), targetId).None? ==> r == Err(UserNotFound) && users == old(users)
      ensures old(IsAdmin(sid)) && FindUser(old(users), targetId).Some? ==>
        r == Ok(()) && users == ToggleBlocked(old(users), FindUser(old(users), targetId).value)
    {
      if !IsAdmin(sid) {
        return Err(NotAuthorized);
      }
      var found := FindUser(users, targetId);
      if found.None? {
        return Err(UserNotFound);
      }
      var oldUsers := users;
      users := ToggleBlocked(users, found.value);
      KnownPlayersStayKnown(oldUsers, users, players);
      r := Ok(());
    }

    /** The `resetGame` handler: administrators only. */
    method AdminResetGame(sid: SocketId, now: int) returns (r: Result<(), AdminError>)
      requires Valid()
      modifies this`board, this`status, this`rowSelections, this`currentPlayerIndex, this`currentPlayer, this`turnStartTime
      ensures Valid()
      ensures !old(IsAdmin(sid)) ==> r == Err(NotAuthorized) && unchanged(this)
      ensures old(IsAdmin(sid)) ==> r == Ok(()) && FreshBoard(board) && status == Playing && rowSelections == Zeros()
      ensures old(IsAdmin(sid)) && |players| == 0 ==> TurnFields() == Turn(0, None, Some(now))
      ensures old(IsAdmin(sid)) && |players| > 0 ==>
        TurnFields() == Rotate(BlockedFlags(users, players), players, Turn(0, Some(players[0]), Some(now)), now)
      ensures users == old(users) && sockets == old(sockets) && players == old(players)
    {
      if !IsAdmin(sid) {
        return Err(NotAuthorized);
      }
      ResetGame(now);
      r := Ok(());
    }
  }
}
