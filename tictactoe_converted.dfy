/** The converted tic-tac-toe game
    (`py-tic-tac-toe/rust/converted_project/src/main.rs`): a `Game` holding a
    3x3 array of optional players (`None` is an empty cell) and the player to
    move, a move that refuses cells outside the board or already taken, and
    the game loop of `main`. */
module TicTacToeConverted {
  import opened Wrappers
  import opened Grid

  /** Why `make_move` refuses a move. */
  datatype MoveError = OutOfBounds | SpotTaken

  class Game {
    const board: array2<Option<Player>>
    var currentPlayer: Player

    ghost predicate Valid() {
      board.Length0 == SIZE && board.Length1 == SIZE
    }

    /** The board's contents as a value. */
    ghost function Cells(): (b: seq<seq<Option<Player>>>)
      reads board
      requires Valid()
      ensures Square(b) && forall i, j :: 0 <= i < SIZE && 0 <= j < SIZE ==> b[i][j] == board[i, j]
    {
      seq(SIZE, i requires 0 <= i < SIZE reads board => seq(SIZE, j requires 0 <= j < SIZE reads board => board[i, j]))
    }

    /** `Game::new`, with the randomly chosen starting player as a
        parameter: every cell is `None`. */
    constructor(first: Player)
      ensures Valid() && fresh(board)
      ensures Cells() == EmptyBoard(None) && currentPlayer == first
    {
      board := new Option<Player>[SIZE, SIZE]((i, j) => None);
      currentPlayer := first;
      new;
      SameBoard(Cells(), EmptyBoard(None));
    }

    /** `make_move`: a cell outside the board is `OutOfBounds` and a taken
        one `SpotTaken`, both leaving the board as it was; otherwise exactly
        that cell becomes the current player's and one more cell is taken.
        The player to move never changes here. */
    method MakeMove(row: nat, col: nat) returns (r: Result<(), MoveError>)
      requires Valid()
      modifies board
      ensures row >= SIZE || col >= SIZE ==> r == Err(OutOfBounds) && Cells() == old(Cells())
      ensures row < SIZE && col < SIZE && old(Cells())[row][col].Some? ==>
        r == Err(SpotTaken) && Cells() == old(Cells())
      ensures row < SIZE && col < SIZE && old(Cells())[row][col].None? ==>
        r == Ok(()) && Cells() == Place(old(Cells()), row, col, Some(currentPlayer))
      ensures r.Ok? ==> Taken(Cells(), None) == Taken(old(Cells()), None) + 1
    {
      if row >= SIZE || col >= SIZE {
        return Err(OutOfBounds);
      }
      if board[row, col].Some? {
        return Err(SpotTaken);
      }
      ghost var before := Cells();
      board[row, col] := Some(currentPlayer);
      SameBoard(Cells(), Place(before, row, col, Some(currentPlayer)));
      TakenPlace(before, row, col, Some(currentPlayer), None);
      return Ok(());
    }

    /** `.all(...)` over the cells of one line: every cell of the line is
        `target`. */
    predicate AllOn(l: Line, target: Option<Player>)
      reads board
      requires Valid() && l.Valid()
      ensures AllOn(l, target) <==> Owns(Cells(), l, target)
    {
      forall k :: 0 <= k < SIZE ==> board[l.At(k).0, l.At(k).1] == target
    }

    /** `has_player_won`: the rows, then the columns, then the two
        diagonals; true exactly when some line is all `Some(player)`. */
    method HasPlayerWon(player: Player) returns (won: bool)
      requires Valid()
      ensures won <==> Won(Cells(), Some(player))
    {
      for i := 0 to SIZE
        invariant forall k :: 0 <= k < i ==> !Owns(Cells(), Row(k), Some(player))
      {
        if AllOn(Row(i), Some(player)) {
          return true;
        }
      }
      for i := 0 to SIZE
        invariant forall k :: 0 <= k < i ==> !Owns(Cells(), Column(k), Some(player))
      {
        if AllOn(Column(i), Some(player)) {
          return true;
        }
      }
      if AllOn(Diagonal, Some(player)) {
        return true;
      }
      if AllOn(AntiDiagonal, Some(player)) {
        return true;
      }
      NotWon(Cells(), Some(player));
      return false;
    }

    /** `is_board_filled`: every cell is `Some`, that is all nine are taken. */
    function IsBoardFilled(): (filled: bool)
      reads board
      requires Valid()
      ensures filled <==> Full(Cells(), None)
      ensures filled <==> Taken(Cells(), None) == SIZE * SIZE
    {
      TakenFull(Cells(), None);
      forall i, j :: 0 <= i < SIZE && 0 <= j < SIZE ==> board[i, j].Some?
    }
  }

  /** The game as `main` plays it, from the current board and player. */
  ghost function GameOf(game: Game, moves: seq<(nat, nat)>): (f: Finish<Option<Player>>)
    reads game, game.board
    requires game.Valid()
  {
    Play(game.Cells(), game.currentPlayer, moves, None, Some(X), Some(O))
  }

  /** One move of `main`'s loop once the coordinates are read: a refused
      move keeps the player; an accepted one checks the mover for a win,
      then for a draw, else switches the player. The game is then over with
      `Play`'s board and ending, or `Play` goes on from the new state. */
  method Turn(game: Game, m: (nat, nat), ghost rest: seq<(nat, nat)>) returns (over: bool, ending: Ending)
    requires game.Valid() && m.0 < SIZE && m.1 < SIZE
    modifies game, game.board
    ensures var f := Play(old(game.Cells()), old(game.currentPlayer), [m] + rest, None, Some(X), Some(O));
      && (over ==> game.Cells() == f.board && ending == f.ending && game.currentPlayer == old(game.currentPlayer))
      && (over ==> ending == Wins(game.currentPlayer) || ending == MatchDraw)
      && (!over ==> f.board == GameOf(game, rest).board && f.ending == GameOf(game, rest).ending)
  {
    ghost var before := game.Cells();
    var player := game.currentPlayer;
    over, ending := false, Unfinished(player);
    var moved := game.MakeMove(m.0, m.1);
    match moved
    case Ok(_) =>
      PlayAccepted(before, player, m, rest, None, Some(X), Some(O));
      var won := game.HasPlayerWon(player);
      if won {
        over, ending := true, Wins(player);
      } else if game.IsBoardFilled() {
        over, ending := true, MatchDraw;
      } else {
        game.currentPlayer := Other(player);
      }
    case Err(_) =>
      PlayRefused(before, player, m, rest, None, Some(X), Some(O));
  }

  /** One pass of `main`'s loop: read coordinates from the input after
      `pos`, then play the move. The game is over when it is won, drawn, or
      the input has run out. */
  method Round(game: Game, lines: seq<Option<string>>, pos: nat) returns (over: bool, ending: Ending, pos': nat)
    requires game.Valid() && pos <= |lines|
    modifies game, game.board
    ensures pos <= pos' <= |lines|
    ensures var f := Play(old(game.Cells()), old(game.currentPlayer), Entered(lines[pos..]), None, Some(X), Some(O));
      && (over ==> game.Cells() == f.board && ending == f.ending && game.currentPlayer == old(game.currentPlayer))
      && (over && ending.Wins? ==> ending.player == game.currentPlayer)
      && (over && ending.Unfinished? ==> ending.next == game.currentPlayer)
      && (!over ==>
            pos < pos' &&
            f.board == GameOf(game, Entered(lines[pos'..])).board &&
            f.ending == GameOf(game, Entered(lines[pos'..])).ending)
  {
    var rc;
    rc, pos' := ReadCoordinates(lines, pos);
    if rc.None? {
      return true, Unfinished(game.currentPlayer), pos';
    }
    over, ending := Turn(game, rc.value, Entered(lines[pos'..]));
  }

  /** `main`, with the random starting player as a parameter and standard
      input as the lines read. The final board and the ending are those of
      `Play` from the empty board over the cells the input enters; the
      winner, or the player left to move, is the current player. */
  method Run(first: Player, lines: seq<Option<string>>) returns (game: Game, ending: Ending)
    ensures game.Valid()
    ensures var f := Play(EmptyBoard(None), first, Entered(lines), None, Some(X), Some(O));
      game.Cells() == f.board && ending == f.ending
    ensures ending.Wins? ==> game.currentPlayer == ending.player
    ensures ending.Unfinished? ==> game.currentPlayer == ending.next
  {
    game := new Game(first);
    ghost var total := GameOf(game, Entered(lines));
    var gameOver := false;
    var pos := 0;
    assert lines[pos..] == lines;
    ending := Unfinished(first);
    while !gameOver
      invariant game.Valid() && pos <= |lines|
      invariant !gameOver ==>
        total.board == GameOf(game, Entered(lines[pos..])).board &&
        total.ending == GameOf(game, Entered(lines[pos..])).ending
      invariant gameOver ==> total.board == game.Cells() && total.ending == ending
      invariant gameOver && ending.Wins? ==> game.currentPlayer == ending.player
      invariant gameOver && ending.Unfinished? ==> game.currentPlayer == ending.next
      decreases |lines| - pos, !gameOver
    {
      gameOver, ending, pos := Round(game, lines, pos);
    }
  }
}
