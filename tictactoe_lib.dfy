/** The tic-tac-toe library (`py-tic-tac-toe/src/lib.rs`): a board of cells
    in a fixed 3x3 array and the player to move, with moves that mutate the
    board and checks that read it. */
module TicTacToeLib {
  import opened Wrappers
  import opened Grid

  datatype GameState = InProgress | Win(player: Player) | Draw

  /** Why `fix_spot` refuses a move; the source returns one message for each. */
  datatype SpotError = OutOfBounds | AlreadyTaken

  /** What `check_game_state` reports: a line for the player to move wins,
      before a full board is a draw. */
  ghost function StateOf(b: seq<seq<Cell>>, current: Player): GameState
    requires Square(b)
  {
    if Won(b, Occupied(current)) then Win(current)
    else if Full(b, Empty) then Draw
    else InProgress
  }

  /** The game is over (a win or a draw) on a full board, or once the
      player to move has a line; only the player to move can be reported as
      winner, and a new game is in progress. */
  lemma StateOfBoard(b: seq<seq<Cell>>, current: Player)
    requires Square(b)
    ensures StateOf(b, current) == InProgress <==> Taken(b, Empty) < SIZE * SIZE && !Won(b, Occupied(current))
    ensures StateOf(b, current).Win? ==> StateOf(b, current).player == current
    ensures StateOf(EmptyBoard(Empty), current) == InProgress
  {
    TakenFull(b, Empty);
    EmptyBoardNotWon(Empty, Occupied(current));
    assert EmptyBoard(Empty)[0][0] == Empty;
  }

  class TicTacToe {
    const board: array2<Cell>
    var currentPlayer: Player

    ghost predicate Valid() {
      board.Length0 == SIZE && board.Length1 == SIZE
    }

    /** The board's contents as a value. */
    ghost function Cells(): (b: seq<seq<Cell>>)
      reads board
      requires Valid()
      ensures Square(b) && forall i, j :: 0 <= i < SIZE && 0 <= j < SIZE ==> b[i][j] == board[i, j]
    {
      seq(SIZE, i requires 0 <= i < SIZE reads board => seq(SIZE, j requires 0 <= j < SIZE reads board => board[i, j]))
    }

    /** `new`, with the randomly chosen first player as a parameter. */
    constructor(first: Player)
      ensures Valid() && fresh(board)
      ensures Cells() == EmptyBoard(Empty) && currentPlayer == first
    {
      board := new Cell[SIZE, SIZE]((i, j) => Empty);
      currentPlayer := first;
      new;
      SameBoard(Cells(), EmptyBoard(Empty));
    }

    /** `fix_spot`: a cell outside the board or already taken is refused and
        nothing changes; otherwise exactly that cell gets the current
        player's mark, one more cell is taken, and the player stays. */
    method FixSpot(row: nat, col: nat) returns (r: Result<(), SpotError>)
      requires Valid()
      modifies board
      ensures row >= SIZE || col >= SIZE ==> r == Err(OutOfBounds) && Cells() == old(Cells())
      ensures row < SIZE && col < SIZE && old(Cells())[row][col] != Empty ==>
        r == Err(AlreadyTaken) && Cells() == old(Cells())
      ensures row < SIZE && col < SIZE && old(Cells())[row][col] == Empty ==>
        r == Ok(()) && Cells() == Place(old(Cells()), row, col, Occupied(currentPlayer))
      ensures r.Ok? ==> Taken(Cells(), Empty) == Taken(old(Cells()), Empty) + 1
    {
      if row >= SIZE || col >= SIZE {
        return Err(OutOfBounds);
      }
      if board[row, col] != Empty {
        return Err(AlreadyTaken);
      }
      ghost var before := Cells();
      board[row, col] := Occupied(currentPlayer);
      SameBoard(Cells(), Place(before, row, col, Occupied(currentPlayer)));
      TakenPlace(before, row, col, Occupied(currentPlayer), Empty);
      return Ok(());
    }

    /** `check_game_state`. */
    method CheckGameState() returns (state: GameState)
      requires Valid()
      ensures state == StateOf(Cells(), currentPlayer)
    {
      var won := HasPlayerWon(currentPlayer);
      if won {
        return Win(currentPlayer);
      }
      TakenFull(Cells(), Empty);
      if IsBoardFilled() {
        return Draw;
      }
      return InProgress;
    }

    /** `swap_player_turn`: the other player moves next; the board stays. */
    method SwapPlayerTurn()
      modifies this
      ensures currentPlayer == Other(old(currentPlayer))
    {
      currentPlayer := Other(currentPlayer);
    }

    /** `(0..BOARD_SIZE).all(...)` over the cells of one line: every cell
        of the line holds `target`. */
    predicate AllOn(l: Line, target: Cell)
      reads board
      requires Valid() && l.Valid()
      ensures AllOn(l, target) <==> Owns(Cells(), l, target)
    {
      forall k :: 0 <= k < SIZE ==> board[l.At(k).0, l.At(k).1] == target
    }

    /** `has_player_won`: row and column `i` together for each `i`, then the
        two diagonals; true exactly when some line is all the player's. */
    method HasPlayerWon(player: Player) returns (won: bool)
      requires Valid()
      ensures won <==> Won(Cells(), Occupied(player))
    {
      var target := Occupied(player);
      for i := 0 to SIZE
        invariant forall k :: 0 <= k < i ==> !Owns(Cells(), Row(k), target) && !Owns(Cells(), Column(k), target)
      {
        var rowWin := AllOn(Row(i), target);
        var colWin := AllOn(Column(i), target);
        if rowWin || colWin {
          return true;
        }
      }
      var mainDiagWin := AllOn(Diagonal, target);
      var antiDiagWin := AllOn(AntiDiagonal, target);
      won := mainDiagWin || antiDiagWin;
      if !won {
        NotWon(Cells(), target);
      }
    }

    /** `is_board_filled`: true exactly when all nine cells are taken. */
    function IsBoardFilled(): (filled: bool)
      reads board
      requires Valid()
      ensures filled <==> Taken(Cells(), Empty) == SIZE * SIZE
    {
      TakenFull(Cells(), Empty);
      forall i, j :: 0 <= i < SIZE && 0 <= j < SIZE ==> board[i, j] != Empty
    }
  }
}
