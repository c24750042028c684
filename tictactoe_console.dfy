/** The console tic-tac-toe game (`py-tic-tac-toe/src/main.rs`): a 3x3
    array of cells, a game loop that keeps the player to move in a local
    variable, and a move that overwrites its cell unconditionally, which the
    loop only calls on an empty cell. */
module TicTacToeConsole {
  import opened Wrappers
  import opened Grid

  class TicTacToe {
    const board: array2<Cell>

    ghost predicate Valid() {
      board.Length0 == SIZE && board.Length1 == SIZE
    }

    /** The board's contents as a value. */
    ghost function Cells(): (b: seq<seq<Cell>>)
      reads board
      requires Valid()
      ensures Square(b) && forall i, j :: 0 <= i < SIZE && 0 <= j < SIZE ==> b[i][j] == board[i, j]
    {
      seq(SIZE, i requires 0 <= i < SIZE reads board => seq(SIZE, j requires 0 <= j < SIZE reads board => board[i, j]))
    }

    /** `new`: every cell is empty. */
    constructor()
      ensures Valid() && fresh(board)
      ensures Cells() == EmptyBoard(Empty)
    {
      board := new Cell[SIZE, SIZE]((i, j) => Empty);
      new;
      SameBoard(Cells(), EmptyBoard(Empty));
    }

    /** `fix_spot`: the cell gets the player's mark, whatever it held; no
        other cell changes. */
    method FixSpot(row: nat, col: nat, player: Player)
      requires Valid() && row < SIZE && col < SIZE
      modifies board
      ensures Cells() == Place(old(Cells()), row, col, Occupied(player))
    {
      ghost var before := Cells();
      board[row, col] := Occupied(player);
      SameBoard(Cells(), Place(before, row, col, Occupied(player)));
    }

    /** `.all(...)` over the cells of one line: every cell of the line holds
        `target`. */
    predicate AllOn(l: Line, target: Cell)
      reads board
      requires Valid() && l.Valid()
      ensures AllOn(l, target) <==> Owns(Cells(), l, target)
    {
      forall k :: 0 <= k < SIZE ==> board[l.At(k).0, l.At(k).1] == target
    }

    /** `has_player_won`: the rows, then the columns, then the two
        diagonals; true exactly when some line is all the player's. */
    method HasPlayerWon(player: Player) returns (won: bool)
      requires Valid()
      ensures won <==> Won(Cells(), Occupied(player))
    {
      var target := Occupied(player);
      for i := 0 to SIZE
        invariant forall k :: 0 <= k < i ==> !Owns(Cells(), Row(k), target)
      {
        if AllOn(Row(i), target) {
          return true;
        }
      }
      for j := 0 to SIZE
        invariant forall k :: 0 <= k < j ==> !Owns(Cells(), Column(k), target)
      {
        if AllOn(Column(j), target) {
          return true;
        }
      }
      if AllOn(Diagonal, target) {
        return true;
      }
      if AllOn(AntiDiagonal, target) {
        return true;
      }
      NotWon(Cells(), target);
      return false;
    }

    /** `is_board_filled`: no cell is empty, that is all nine are taken. */
    function IsBoardFilled(): (filled: bool)
      reads board
      requires Valid()
      ensures filled <==> Full(Cells(), Empty)
      ensures filled <==> Taken(Cells(), Empty) == SIZE * SIZE
    {
      TakenFull(Cells(), Empty);
      forall i, j :: 0 <= i < SIZE && 0 <= j < SIZE ==> board[i, j] != Empty
    }

    /** One turn of `start` once the coordinates are read: the game after
        it is the game `Play` continues with, or the game is over with
        `Play`'s board and ending. */
    method Turn(player: Player, m: (nat, nat), ghost rest: seq<(nat, nat)>) returns (next: Player, over: bool, ending: Ending)
      requires Valid() && m.0 < SIZE && m.1 < SIZE
      modifies board
      ensures var f := Play(old(Cells()), player, [m] + rest, Empty, Occupied(X), Occupied(O));
        && (over ==> Cells() == f.board && ending == f.ending)
        && (!over ==>
              f.board == Play(Cells(), next, rest, Empty, Occupied(X), Occupied(O)).board &&
              f.ending == Play(Cells(), next, rest, Empty, Occupied(X), Occupied(O)).ending)
    {
      var (row, col) := m;
      next, over, ending := player, false, Unfinished(player);
      if board[row, col] == Empty {
        ghost var before := Cells();
        FixSpot(row, col, player);
        PlayAccepted(before, player, m, rest, Empty, Occupied(X), Occupied(O));
        var won := HasPlayerWon(player);
        if won {
          over, ending := true, Wins(player);
        } else if IsBoardFilled() {
          over, ending := true, MatchDraw;
        } else {
          next := Other(player);
        }
      } else {
        PlayRefused(Cells(), player, m, rest, Empty, Occupied(X), Occupied(O));
      }
    }

    /** One pass of `start`'s loop: read coordinates from the input that
        remains after `pos`, then play the turn. The game is over when it is
        won, drawn, or the input has run out. */
    method Round(player: Player, lines: seq<Option<string>>, pos: nat) returns (next: Player, over: bool, ending: Ending, pos': nat)
      requires Valid() && pos <= |lines|
      modifies board
      ensures pos <= pos' <= |lines|
      ensures var f := Play(old(Cells()), player, Entered(lines[pos..]), Empty, Occupied(X), Occupied(O));
        && (over ==> Cells() == f.board && ending == f.ending)
        && (!over ==>
              pos < pos' &&
              f.board == Play(Cells(), next, Entered(lines[pos'..]), Empty, Occupied(X), Occupied(O)).board &&
              f.ending == Play(Cells(), next, Entered(lines[pos'..]), Empty, Occupied(X), Occupied(O)).ending)
    {
      var rc;
      rc, pos' := ReadCoordinates(lines, pos);
      if rc.None? {
        return player, true, Unfinished(player), pos';
      }
      next, over, ending := Turn(player, rc.value, Entered(lines[pos'..]));
    }

    /** `start`, with the random first player as a parameter and standard
        input as the lines read: each turn reads coordinates, marks an
        empty cell (an occupied one is refused and the same player tries
        again), then checks the mover for a win, then for a draw, else
        passes the turn. The board and the ending are those of `Play` over
        the cells the input enters; `Unfinished` when the input runs out. */
    method Start(first: Player, lines: seq<Option<string>>) returns (ending: Ending)
      requires Valid()
      modifies board
      ensures var f := Play(old(Cells()), first, Entered(lines), Empty, Occupied(X), Occupied(O));
        Cells() == f.board && ending == f.ending
    {
      ghost var total := Play(Cells(), first, Entered(lines), Empty, Occupied(X), Occupied(O));
      var currentPlayer := first;
      var gameOver := false;
      var pos := 0;
      assert lines[pos..] == lines;
      ending := Unfinished(first);
      while !gameOver
        invariant pos <= |lines|
        invariant !gameOver ==>
          total.board == Play(Cells(), currentPlayer, Entered(lines[pos..]), Empty, Occupied(X), Occupied(O)).board &&
          total.ending == Play(Cells(), currentPlayer, Entered(lines[pos..]), Empty, Occupied(X), Occupied(O)).ending
        invariant gameOver ==> total.board == Cells() && total.ending == ending
        decreases |lines| - pos, !gameOver
      {
        currentPlayer, gameOver, ending, pos := Round(currentPlayer, lines, pos);
      }
    }
  }
}
