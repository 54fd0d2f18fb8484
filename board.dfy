/** The board of server.js: sixteen tiles in four rows of four, each row
    holding two winning (+15000) and two losing (-15000) tiles, shuffled
    within the row; the game-over test; and the redacted view of the board
    that every `gameState` broadcast carries. */
module Board {
  import opened Common

  datatype Tile = Tile(value: int, revealed: bool)

  const Prize: int := 15000
  const RowCount: nat := 4
  const RowLength: nat := 4
  const BoardSize: nat := 16

  const Winning: Tile := Tile(Prize, false)
  const Losing: Tile := Tile(-Prize, false)

  /** The tiles one row starts with, in any order. */
  const RowTiles: multiset<Tile> := multiset{Winning, Winning, Losing, Losing}

  /** The row a tile index belongs to (`Math.floor(tileIndex / 4)` for a non-negative index). */
  function RowOf(index: nat): nat {
    index / RowLength
  }

  function Row(board: seq<Tile>, row: nat): seq<Tile>
    requires RowLength * (row + 1) <= |board|
  {
    board[RowLength * row .. RowLength * (row + 1)]
  }

  function Values(board: seq<Tile>): seq<int> {
    seq(|board|, k requires 0 <= k < |board| => board[k].value)
  }

  /** Number of occurrences of `v` in `s`. */
  function Count(s: seq<int>, v: int): nat {
    if s == [] then 0 else (if s[0] == v then 1 else 0) + Count(s[1..], v)
  }

  /** What generateBoard produces: four rows, each a rearrangement of RowTiles. */
  ghost predicate FreshBoard(board: seq<Tile>) {
    |board| == BoardSize &&
    forall r :: 0 <= r < RowCount ==> multiset(Row(board, r)) == RowTiles
  }

  /** The value balance every board keeps while tiles are revealed: two
      winning and two losing values in each row. */
  ghost predicate Balanced(board: seq<Tile>) {
    |board| == BoardSize &&
    forall r :: 0 <= r < RowCount ==>
      Count(Values(Row(board, r)), Prize) == 2 && Count(Values(Row(board, r)), -Prize) == 2
  }

  lemma {:induction false} CountConcat(a: seq<int>, b: seq<int>, v: int)
    ensures Count(a + b, v) == Count(a, v) + Count(b, v)
  {
    if a != [] {
      CountConcat(a[1..], b, v);
      assert (a + b)[1..] == a[1..] + b;
    } else {
      assert a + b == b;
    }
  }

  lemma ValuesConcat(a: seq<Tile>, b: seq<Tile>)
    ensures Values(a + b) == Values(a) + Values(b)
  {
  }

  /** In a sequence of winning and losing tiles, the number of Prize values is
      the number of winning tiles, and likewise for losing ones. */
  lemma {:induction false} CountWinningLosing(s: seq<Tile>)
    requires forall k :: 0 <= k < |s| ==> s[k] == Winning || s[k] == Losing
    ensures Count(Values(s), Prize) == multiset(s)[Winning]
    ensures Count(Values(s), -Prize) == multiset(s)[Losing]
  {
    if s != [] {
      CountWinningLosing(s[1..]);
      assert Values(s) == [s[0].value] + Values(s[1..]);
      assert s == [s[0]] + s[1..];
      assert multiset(s) == multiset{s[0]} + multiset(s[1..]);
    }
  }

  /** Every generated board has sixteen unrevealed tiles, two winning and two
      losing in each row, and so eight of each in all. */
  lemma FreshBoardFacts(board: seq<Tile>)
    requires FreshBoard(board)
    ensures |board| == BoardSize
    ensures forall k :: 0 <= k < |board| ==> !board[k].revealed
    ensures Balanced(board)
    ensures Count(Values(board), Prize) == 8 && Count(Values(board), -Prize) == 8
  {
    forall r | 0 <= r < RowCount
      ensures forall k :: 0 <= k < RowLength ==> Row(board, r)[k] == Winning || Row(board, r)[k] == Losing
      ensures Count(Values(Row(board, r)), Prize) == 2 && Count(Values(Row(board, r)), -Prize) == 2
    {
      var row := Row(board, r);
      forall k | 0 <= k < RowLength ensures row[k] == Winning || row[k] == Losing {
        assert row[k] in multiset(row);
      }
      CountWinningLosing(row);
    }
    forall k | 0 <= k < |board| ensures !board[k].revealed {
      var r := RowOf(k);
      assert board[k] == Row(board, r)[k - RowLength * r];
    }
    var v := Values(board);
    assert board == Row(board, 0) + Row(board, 1) + Row(board, 2) + Row(board, 3);
    ValuesConcat(Row(board, 0), Row(board, 1));
    ValuesConcat(Row(board, 0) + Row(board, 1), Row(board, 2));
    ValuesConcat(Row(board, 0) + Row(board, 1) + Row(board, 2), Row(board, 3));
    var v01 := Values(Row(board, 0)) + Values(Row(board, 1));
    var v012 := v01 + Values(Row(board, 2));
    assert v == v012 + Values(Row(board, 3));
    forall x | x == Prize || x == -Prize ensures Count(v, x) == 8 {
      CountConcat(Values(Row(board, 0)), Values(Row(board, 1)), x);
      CountConcat(v01, Values(Row(board, 2)), x);
      CountConcat(v012, Values(Row(board, 3)), x);
    }
  }

  /** Revealing a tile leaves every value where it was, so the balance holds. */
  lemma RevealKeepsValues(board: seq<Tile>, i: nat)
    requires i < |board|
    ensures Values(board[i := board[i].(revealed := true)]) == Values(board)
    ensures Balanced(board) ==> Balanced(board[i := board[i].(revealed := true)])
  {
    var b' := board[i := board[i].(revealed := true)];
    assert Values(b') == Values(board);
    if Balanced(board) {
      forall r | 0 <= r < RowCount ensures Values(Row(b', r)) == Values(Row(board, r)) {
        assert Values(Row(b', r)) == Values(b')[RowLength * r .. RowLength * (r + 1)];
        assert Values(Row(board, r)) == Values(board)[RowLength * r .. RowLength * (r + 1)];
      }
    }
  }

  /** Exchanging two elements keeps the multiset of a sequence. */
  lemma SwapPermutes<T>(s: seq<T>, i: nat, j: nat)
    requires i < |s| && j < |s|
    ensures multiset(s[i := s[j]][j := s[i]]) == multiset(s)
  {
  }

  /** Appending one row of tiles leaves the earlier rows in place. */
  lemma AppendRow(tiles: seq<Tile>, extra: seq<Tile>, rows: nat)
    requires |tiles| == RowLength * rows && |extra| == RowLength
    ensures forall r :: 0 <= r < rows ==> Row(tiles + extra, r) == Row(tiles, r)
    ensures Row(tiles + extra, rows) == extra
  {
    forall r | 0 <= r < rows ensures Row(tiles + extra, r) == Row(tiles, r) {
    }
  }

  /** shuffleArray: a Fisher-Yates shuffle of a copy of the input. The random
      index of each step is any j with 0 <= j <= i. */
  method ShuffleArray<T>(s: seq<T>) returns (r: seq<T>)
    ensures |r| == |s|
    ensures multiset(r) == multiset(s)
  {
    var a := new T[|s|](k requires 0 <= k < |s| => s[k]);
    assert a[..] == s;
    var i := a.Length - 1;
    while i > 0
      invariant -1 <= i < a.Length
      invariant multiset(a[..]) == multiset(s)
    {
      var j :| 0 <= j <= i;
      ghost var before := a[..];
      a[i], a[j] := a[j], a[i];
      SwapPermutes(before, i, j);
      assert a[..] == before[i := before[j]][j := before[i]];
      i := i - 1;
    }
    r := a[..];
  }

  /** generateBoard: for each of the four rows, two winning then two losing
      tiles, shuffled, appended to the board. */
  method GenerateBoard() returns (tiles: seq<Tile>)
    ensures FreshBoard(tiles)
  {
    tiles := [];
    for row := 0 to RowCount
      invariant |tiles| == RowLength * row
      invariant forall r :: 0 <= r < row ==> multiset(Row(tiles, r)) == RowTiles
    {
      var rowTiles: seq<Tile> := [];
      for i := 0 to 2
        invariant rowTiles == seq(i, _ => Winning)
      {
        rowTiles := rowTiles + [Winning];
      }
      for i := 0 to 2
        invariant rowTiles == [Winning, Winning] + seq(i, _ => Losing)
      {
        rowTiles := rowTiles + [Losing];
      }
      assert rowTiles == [Winning, Winning, Losing, Losing];
      var shuffled := ShuffleArray(rowTiles);
      AppendRow(tiles, shuffled, row);
      tiles := tiles + shuffled;
    }
  }

  function RevealedCount(board: seq<Tile>): (n: nat)
    ensures n <= |board|
  {
    if board == [] then 0 else (if board[0].revealed then 1 else 0) + RevealedCount(board[1..])
  }

  /** Every tile is revealed exactly when the revealed count reaches the board size. */
  lemma {:induction false} AllRevealedIffCounted(board: seq<Tile>)
    ensures (forall k :: 0 <= k < |board| ==> board[k].revealed) <==> RevealedCount(board) == |board|
  {
    if board != [] {
      var rest := board[1..];
      AllRevealedIffCounted(rest);
      if (forall k :: 0 <= k < |rest| ==> rest[k].revealed) && board[0].revealed {
        forall k | 0 <= k < |board| ensures board[k].revealed {
          if k > 0 { assert board[k] == rest[k - 1]; }
        }
      }
      if forall k :: 0 <= k < |board| ==> board[k].revealed {
        forall k | 0 <= k < |rest| ensures rest[k].revealed {
          assert rest[k] == board[k + 1];
        }
      }
    }
  }

  /** checkGameOver: every tile of the board is revealed, which is to say the
      number of revealed tiles has reached the board size. */
  function CheckGameOver(board: seq<Tile>): (over: bool)
    ensures over <==> RevealedCount(board) == |board|
  {
    AllRevealedIffCounted(board);
    forall k :: 0 <= k < |board| ==> board[k].revealed
  }

  /** Revealing a hidden tile raises the revealed count by exactly one. */
  lemma {:induction false} RevealCountsOnce(board: seq<Tile>, i: nat)
    requires i < |board| && !board[i].revealed
    ensures RevealedCount(board[i := board[i].(revealed := true)]) == RevealedCount(board) + 1
  {
    var b' := board[i := board[i].(revealed := true)];
    if i == 0 {
      assert b'[1..] == board[1..];
    } else {
      assert b'[1..] == board[1..][i - 1 := board[i].(revealed := true)];
      RevealCountsOnce(board[1..], i - 1);
    }
  }

  /** A tile as a `gameState` broadcast shows it: the value is null unless the tile is revealed. */
  datatype TileView = TileView(value: Option<int>, revealed: bool)

  function RedactTile(t: Tile): TileView {
    TileView(if t.revealed then Some(t.value) else None, t.revealed)
  }

  /** The `board.map(tile => ({...tile, value: tile.revealed ? tile.value : null}))` of every broadcast. */
  function RedactBoard(board: seq<Tile>): (view: seq<TileView>)
    ensures |view| == |board|
    ensures forall k :: 0 <= k < |board| ==>
      view[k].revealed == board[k].revealed &&
      (view[k].value.None? <==> !board[k].revealed) &&
      (board[k].revealed ==> view[k].value == Some(board[k].value))
  {
    seq(|board|, k requires 0 <= k < |board| => RedactTile(board[k]))
  }

  /** Two boards look alike to an observer when they agree on which tiles are
      revealed and on the values of the revealed ones. */
  ghost predicate SameVisible(a: seq<Tile>, b: seq<Tile>) {
    |a| == |b| &&
    forall k :: 0 <= k < |a| ==>
      a[k].revealed == b[k].revealed && (a[k].revealed ==> a[k].value == b[k].value)
  }

  /** The redacted view depends on nothing but the visible part of the board:
      no hidden value can be read from a broadcast. */
  lemma RedactionHidesHiddenValues(a: seq<Tile>, b: seq<Tile>)
    ensures RedactBoard(a) == RedactBoard(b) <==> SameVisible(a, b)
  {
    if SameVisible(a, b) {
      assert forall k :: 0 <= k < |a| ==> RedactBoard(a)[k] == RedactBoard(b)[k];
    }
    if RedactBoard(a) == RedactBoard(b) {
      assert |a| == |RedactBoard(a)|;
      forall k | 0 <= k < |a| ensures a[k].revealed == b[k].revealed && (a[k].revealed ==> a[k].value == b[k].value) {
        assert RedactBoard(a)[k] == RedactBoard(b)[k];
      }
    }
  }

  /** Once the board is over, its redacted view shows every value: the
      game-over broadcast of the unredacted board exposes nothing hidden. */
  lemma GameOverViewShowsAll(board: seq<Tile>)
    requires CheckGameOver(board)
    ensures forall k :: 0 <= k < |board| ==> RedactBoard(board)[k] == TileView(Some(board[k].value), true)
  {
  }
}
