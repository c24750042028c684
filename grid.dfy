/** The 3x3 board the three tic-tac-toe programs share: the players, the
    eight winning lines, the number of occupied cells, the reading of a
    move from a line of input, and the turn-by-turn game the two console
    programs play. A board is a sequence of three rows of three cells; the
    programs' cell types differ, so the definitions take the empty cell and
    the players' marks as parameters. */
module Grid {
  import opened Wrappers
  import opened Text

  const SIZE: nat := 3

  datatype Player = X | O

  /** The cell of the two `TicTacToe` programs. */
  datatype Cell = Empty | Occupied(player: Player)

  /** The other player (`swap`, `swap_player_turn`, `switch`). */
  function Other(p: Player): (q: Player)
    ensures q != p
  {
    match p
    case X => O
    case O => X
  }

  /** Swapping twice gives the player back, and every player is the other
      of exactly one player. */
  lemma OtherInvolution(p: Player, q: Player)
    ensures Other(Other(p)) == p
    ensures Other(p) == Other(q) ==> p == q
  {
  }

  predicate Square<T>(b: seq<seq<T>>) {
    |b| == SIZE && forall i :: 0 <= i < SIZE ==> |b[i]| == SIZE
  }

  /** The board every program starts from. */
  function EmptyBoard<T>(empty: T): (b: seq<seq<T>>)
    ensures Square(b)
    ensures forall i, j :: 0 <= i < SIZE && 0 <= j < SIZE ==> b[i][j] == empty
  {
    seq(SIZE, i => seq(SIZE, j => empty))
  }

  /** Row `i` with the cell at `j` set to `v`. */
  function Place<T>(b: seq<seq<T>>, i: nat, j: nat, v: T): (r: seq<seq<T>>)
    requires Square(b) && i < SIZE && j < SIZE
    ensures Square(r) && r[i][j] == v
    ensures forall k, l :: 0 <= k < SIZE && 0 <= l < SIZE && (k, l) != (i, j) ==> r[k][l] == b[k][l]
  {
    b[i := b[i][j := v]]
  }

  // ------------------------------------------------------------ lines

  /** The eight lines: a row, a column, the main and the anti-diagonal. */
  datatype Line = Row(i: nat) | Column(j: nat) | Diagonal | AntiDiagonal {
    predicate Valid() {
      match this
      case Row(i) => i < SIZE
      case Column(j) => j < SIZE
      case _ => true
    }

    /** The `k`-th cell of the line, as (row, column). */
    function At(k: nat): (rc: (nat, nat))
      requires Valid() && k < SIZE
      ensures rc.0 < SIZE && rc.1 < SIZE
    {
      match this
      case Row(i) => (i, k)
      case Column(j) => (k, j)
      case Diagonal => (k, k)
      case AntiDiagonal => (k, SIZE - 1 - k)
    }
  }

  /** Every cell of the line holds `target`. */
  predicate Owns<T(==)>(b: seq<seq<T>>, l: Line, target: T)
    requires Square(b) && l.Valid()
  {
    forall k :: 0 <= k < SIZE ==> b[l.At(k).0][l.At(k).1] == target
  }

  /** Some line is entirely `target`. */
  ghost predicate Won<T>(b: seq<seq<T>>, target: T)
    requires Square(b)
  {
    exists l: Line :: l.Valid() && Owns(b, l, target)
  }

  /** No cell is empty. */
  predicate Full<T(==)>(b: seq<seq<T>>, empty: T)
    requires Square(b)
  {
    forall i, j :: 0 <= i < SIZE && 0 <= j < SIZE ==> b[i][j] != empty
  }

  /** The empty board has no line for any mark but the empty one. */
  lemma EmptyBoardNotWon<T>(empty: T, target: T)
    requires target != empty
    ensures !Won(EmptyBoard(empty), target)
  {
    var b := EmptyBoard(empty);
    forall l: Line | l.Valid() ensures !Owns(b, l, target) {
      assert b[l.At(0).0][l.At(0).1] == empty;
    }
  }

  /** No row, no column and neither diagonal is entirely `target`: no line is. */
  lemma NotWon<T>(b: seq<seq<T>>, target: T)
    requires Square(b)
    requires forall k :: 0 <= k < SIZE ==> !Owns(b, Row(k), target) && !Owns(b, Column(k), target)
    requires !Owns(b, Diagonal, target) && !Owns(b, AntiDiagonal, target)
    ensures !Won(b, target)
  {
    forall l: Line | l.Valid() ensures !Owns(b, l, target) {
      match l
      case Row(i) =>
      case Column(j) =>
      case Diagonal =>
      case AntiDiagonal =>
    }
  }

  /** One cell of the line that is not `target` keeps the line from being
      owned. */
  lemma Misses<T>(b: seq<seq<T>>, l: Line, target: T, k: nat)
    requires Square(b) && l.Valid() && k < SIZE
    requires b[l.At(k).0][l.At(k).1] != target
    ensures !Owns(b, l, target)
  {
  }

  /** Two boards that agree cell by cell are the same board. */
  lemma SameBoard<T>(a: seq<seq<T>>, b: seq<seq<T>>)
    requires Square(a) && Square(b)
    requires forall i, j :: 0 <= i < SIZE && 0 <= j < SIZE ==> a[i][j] == b[i][j]
    ensures a == b
  {
    forall i | 0 <= i < SIZE ensures a[i] == b[i] {
      assert forall j :: 0 <= j < SIZE ==> a[i][j] == b[i][j];
    }
  }

  // ------------------------------------------------------------ occupied cells

  /** The cells of a row that are not empty. */
  function Marks<T(==)>(row: seq<T>, empty: T): (n: nat)
    ensures n <= |row|
    decreases |row|
  {
    if row == [] then 0 else (if row[0] != empty then 1 else 0) + Marks(row[1..], empty)
  }

  /** The cells of a board that are not empty. */
  function Taken<T(==)>(b: seq<seq<T>>, empty: T): nat
    decreases |b|
  {
    if b == [] then 0 else Marks(b[0], empty) + Taken(b[1..], empty)
  }

  lemma {:induction false} MarksAll<T>(row: seq<T>, empty: T)
    ensures Marks(row, empty) == |row| <==> forall j :: 0 <= j < |row| ==> row[j] != empty
    decreases |row|
  {
    if row != [] {
      MarksAll(row[1..], empty);
      if Marks(row, empty) == |row| {
        forall j | 0 <= j < |row| ensures row[j] != empty {
          if j > 0 {
            assert row[j] == row[1..][j - 1];
          }
        }
      }
      if forall j :: 0 <= j < |row| ==> row[j] != empty {
        assert row[0] != empty;
        forall j | 0 <= j < |row| - 1 ensures row[1..][j] != empty {
          assert row[1..][j] == row[j + 1];
        }
      }
    }
  }

  lemma {:induction false} MarksNone<T>(row: seq<T>, empty: T)
    requires forall j :: 0 <= j < |row| ==> row[j] == empty
    ensures Marks(row, empty) == 0
    decreases |row|
  {
    if row != [] {
      assert forall j :: 0 <= j < |row| - 1 ==> row[1..][j] == row[j + 1];
      MarksNone(row[1..], empty);
    }
  }

  /** The empty board has no cell taken. */
  lemma TakenEmpty<T>(empty: T)
    ensures Taken(EmptyBoard(empty), empty) == 0
  {
    var b := EmptyBoard(empty);
    MarksNone(b[0], empty);
    MarksNone(b[1], empty);
    MarksNone(b[2], empty);
    var b1 := b[1..];
    var b2 := b1[1..];
    assert b1[0] == b[1] && b2[0] == b[2] && b2[1..] == [];
    assert Taken(b2, empty) == 0;
    assert Taken(b1, empty) == 0;
  }

  lemma {:induction false} MarksUpdate<T>(row: seq<T>, j: nat, v: T, empty: T)
    requires j < |row| && row[j] == empty && v != empty
    ensures Marks(row[j := v], empty) == Marks(row, empty) + 1
    decreases j
  {
    if j > 0 {
      MarksUpdate(row[1..], j - 1, v, empty);
      assert row[j := v][1..] == row[1..][j - 1 := v];
    }
  }

  /** Marking an empty cell takes exactly one more cell. */
  lemma {:induction false} TakenPlace<T>(b: seq<seq<T>>, i: nat, j: nat, v: T, empty: T)
    requires i < |b| && j < |b[i]| && b[i][j] == empty && v != empty
    ensures Taken(b[i := b[i][j := v]], empty) == Taken(b, empty) + 1
    decreases i
  {
    if i == 0 {
      MarksUpdate(b[0], j, v, empty);
      assert b[0 := b[0][j := v]][1..] == b[1..];
    } else {
      TakenPlace(b[1..], i - 1, j, v, empty);
      assert b[i := b[i][j := v]][1..] == b[1..][i - 1 := b[i][j := v]];
    }
  }

  /** A board has at most nine occupied cells, and nine exactly when it is full. */
  lemma TakenFull<T>(b: seq<seq<T>>, empty: T)
    requires Square(b)
    ensures Taken(b, empty) <= SIZE * SIZE
    ensures Taken(b, empty) == SIZE * SIZE <==> Full(b, empty)
  {
    var b1 := b[1..];
    var b2 := b1[1..];
    assert b2[1..] == [];
    assert Taken(b2, empty) == Marks(b2[0], empty);
    assert Taken(b1, empty) == Marks(b1[0], empty) + Taken(b2, empty);
    assert b1[0] == b[1] && b2[0] == b[2];
    MarksAll(b[0], empty);
    MarksAll(b[1], empty);
    MarksAll(b[2], empty);
  }

  // ------------------------------------------------------------ the turn loop

  /** How a game ends: a winner, a draw, or the input running out with
      `next` to move. */
  datatype Ending = Wins(player: Player) | MatchDraw | Unfinished(next: Player)

  /** The final board, the ending and the number of moves accepted. */
  datatype Finish<T> = Finish(board: seq<seq<T>>, ending: Ending, accepted: nat)

  function Mark<T>(p: Player, xMark: T, oMark: T): T {
    if p == X then xMark else oMark
  }

  /** The console games' loop: a move outside the board or onto a taken cell
      is refused and the same player moves again; an accepted move marks the
      cell, then a line for the mover wins, else a full board is a draw, else
      the turn passes. */
  ghost function Play<T>(b: seq<seq<T>>, player: Player, moves: seq<(nat, nat)>, empty: T, xMark: T, oMark: T): (f: Finish<T>)
    requires Square(b)
    ensures Square(f.board)
    decreases |moves|
  {
    if moves == [] then Finish(b, Unfinished(player), 0)
    else
      var (i, j) := moves[0];
      if i >= SIZE || j >= SIZE || b[i][j] != empty then Play(b, player, moves[1..], empty, xMark, oMark)
      else
        var next := Place(b, i, j, Mark(player, xMark, oMark));
        if Won(next, Mark(player, xMark, oMark)) then Finish(next, Wins(player), 1)
        else if Full(next, empty) then Finish(next, MatchDraw, 1)
        else
          var rest := Play(next, Other(player), moves[1..], empty, xMark, oMark);
          rest.(accepted := rest.accepted + 1)
  }

  /** A refused move leaves the game to the next move, same board, same
      player. */
  lemma PlayRefused<T>(b: seq<seq<T>>, player: Player, m: (nat, nat), rest: seq<(nat, nat)>, empty: T, xMark: T, oMark: T)
    requires Square(b) && (m.0 >= SIZE || m.1 >= SIZE || b[m.0][m.1] != empty)
    ensures Play(b, player, [m] + rest, empty, xMark, oMark) == Play(b, player, rest, empty, xMark, oMark)
  {
    assert ([m] + rest)[1..] == rest;
  }

  /** An accepted move marks the cell; a win or a full board ends the game
      there, otherwise the other player plays the rest. */
  lemma PlayAccepted<T>(b: seq<seq<T>>, player: Player, m: (nat, nat), rest: seq<(nat, nat)>, empty: T, xMark: T, oMark: T)
    requires Square(b) && m.0 < SIZE && m.1 < SIZE && b[m.0][m.1] == empty
    ensures var next := Place(b, m.0, m.1, Mark(player, xMark, oMark));
      var f := Play(b, player, [m] + rest, empty, xMark, oMark);
      && (Won(next, Mark(player, xMark, oMark)) ==> f.board == next && f.ending == Wins(player))
      && (!Won(next, Mark(player, xMark, oMark)) && Full(next, empty) ==> f.board == next && f.ending == MatchDraw)
      && (!Won(next, Mark(player, xMark, oMark)) && !Full(next, empty) ==>
            f.board == Play(next, Other(player), rest, empty, xMark, oMark).board &&
            f.ending == Play(next, Other(player), rest, empty, xMark, oMark).ending)
  {
    assert ([m] + rest)[1..] == rest;
  }

  predicate Marks3<T(==)>(empty: T, xMark: T, oMark: T) {
    xMark != empty && oMark != empty && xMark != oMark
  }

  /** Every accepted move takes one more cell, so a game accepts at most as
      many moves as there are empty cells: nine from the empty board. */
  lemma {:induction false} PlayTakes<T>(b: seq<seq<T>>, player: Player, moves: seq<(nat, nat)>, empty: T, xMark: T, oMark: T)
    requires Square(b) && Marks3(empty, xMark, oMark)
    ensures Taken(Play(b, player, moves, empty, xMark, oMark).board, empty) == Taken(b, empty) + Play(b, player, moves, empty, xMark, oMark).accepted
    ensures Play(b, player, moves, empty, xMark, oMark).accepted <= SIZE * SIZE - Taken(b, empty)
    decreases |moves|
  {
    var f := Play(b, player, moves, empty, xMark, oMark);
    TakenFull(f.board, empty);
    if moves != [] {
      var (i, j) := moves[0];
      if i >= SIZE || j >= SIZE || b[i][j] != empty {
        PlayTakes(b, player, moves[1..], empty, xMark, oMark);
      } else {
        var next := Place(b, i, j, Mark(player, xMark, oMark));
        TakenPlace(b, i, j, Mark(player, xMark, oMark), empty);
        if !Won(next, Mark(player, xMark, oMark)) && !Full(next, empty) {
          PlayTakes(next, Other(player), moves[1..], empty, xMark, oMark);
        }
      }
    }
  }

  /** A cell once marked keeps its mark: no move overwrites another. */
  lemma {:induction false} PlayKeeps<T>(b: seq<seq<T>>, player: Player, moves: seq<(nat, nat)>, empty: T, xMark: T, oMark: T)
    requires Square(b)
    ensures forall i, j :: 0 <= i < SIZE && 0 <= j < SIZE && b[i][j] != empty ==>
      Play(b, player, moves, empty, xMark, oMark).board[i][j] == b[i][j]
    decreases |moves|
  {
    if moves != [] {
      var (i, j) := moves[0];
      if i >= SIZE || j >= SIZE || b[i][j] != empty {
        PlayKeeps(b, player, moves[1..], empty, xMark, oMark);
      } else {
        var next := Place(b, i, j, Mark(player, xMark, oMark));
        if !Won(next, Mark(player, xMark, oMark)) && !Full(next, empty) {
          PlayKeeps(next, Other(player), moves[1..], empty, xMark, oMark);
        }
      }
    }
  }

  /** A game ends in a win only with a line of the winner's marks, in a
      draw only on a full board with no line for the last mover, and runs
      out of input only on a board with an empty cell left (unless nothing
      was accepted). */
  lemma {:induction false} PlayEnding<T>(b: seq<seq<T>>, player: Player, moves: seq<(nat, nat)>, empty: T, xMark: T, oMark: T)
    requires Square(b)
    ensures var f := Play(b, player, moves, empty, xMark, oMark);
      && (f.ending.Wins? ==> Won(f.board, Mark(f.ending.player, xMark, oMark)))
      && (f.ending.MatchDraw? ==> Full(f.board, empty))
      && (f.ending.Unfinished? && f.accepted > 0 ==> !Full(f.board, empty))
    decreases |moves|
  {
    if moves != [] {
      var (i, j) := moves[0];
      if i >= SIZE || j >= SIZE || b[i][j] != empty {
        PlayEnding(b, player, moves[1..], empty, xMark, oMark);
      } else {
        var next := Place(b, i, j, Mark(player, xMark, oMark));
        if !Won(next, Mark(player, xMark, oMark)) && !Full(next, empty) {
          PlayEnding(next, Other(player), moves[1..], empty, xMark, oMark);
          var rest := Play(next, Other(player), moves[1..], empty, xMark, oMark);
          if rest.ending.Unfinished? && rest.accepted == 0 {
            PlayNothing(next, Other(player), moves[1..], empty, xMark, oMark);
          }
        }
      }
    }
  }

  /** A game from the empty board accepts at most nine moves, each taking
      one cell; it is won only with a line of the winner's marks, drawn only
      after exactly nine accepted moves, and left unfinished with fewer. */
  lemma NewGame<T>(player: Player, moves: seq<(nat, nat)>, empty: T, xMark: T, oMark: T)
    requires Marks3(empty, xMark, oMark)
    ensures var f := Play(EmptyBoard(empty), player, moves, empty, xMark, oMark);
      && f.accepted <= SIZE * SIZE
      && Taken(f.board, empty) == f.accepted
      && (f.ending.Wins? ==> Won(f.board, Mark(f.ending.player, xMark, oMark)))
      && (f.ending.MatchDraw? ==> f.accepted == SIZE * SIZE)
      && (f.ending.Unfinished? ==> f.accepted < SIZE * SIZE)
  {
    var f := Play(EmptyBoard(empty), player, moves, empty, xMark, oMark);
    TakenEmpty(empty);
    PlayTakes(EmptyBoard(empty), player, moves, empty, xMark, oMark);
    PlayEnding(EmptyBoard(empty), player, moves, empty, xMark, oMark);
    TakenFull(f.board, empty);
  }

  /** A game that accepts no move leaves the board as it was. */
  lemma {:induction false} PlayNothing<T>(b: seq<seq<T>>, player: Player, moves: seq<(nat, nat)>, empty: T, xMark: T, oMark: T)
    requires Square(b)
    requires Play(b, player, moves, empty, xMark, oMark).accepted == 0
    ensures Play(b, player, moves, empty, xMark, oMark).board == b
    decreases |moves|
  {
    if moves != [] {
      var (i, j) := moves[0];
      if i >= SIZE || j >= SIZE || b[i][j] != empty {
        PlayNothing(b, player, moves[1..], empty, xMark, oMark);
      }
    }
  }

  // ------------------------------------------------------------ input

  /** A line of input as `get_player_input` reads it: exactly two
      whitespace-separated numbers (`usize`), each from 1 to 3, converted to
      0-based row and column. */
  function ParseCoordinates(line: string): (rc: Option<(nat, nat)>)
    ensures rc.Some? ==> rc.value.0 < SIZE && rc.value.1 < SIZE
  {
    var parts := Tokens(Trim(line));
    if |parts| != 2 then None
    else
      match (ParseUnsigned(parts[0], USIZE_LIMIT), ParseUnsigned(parts[1], USIZE_LIMIT))
      case (Some(r), Some(c)) =>
        if r > 0 && c > 0 && r <= SIZE && c <= SIZE then Some((r - 1, c - 1)) else None
      case _ => None
  }

  /** What the prompt asks for, "row column" in 1-based numbers, reads back
      as the 0-based cell. */
  lemma ParseTyped(row: nat, col: nat)
    requires row < SIZE && col < SIZE
    ensures ParseCoordinates(Decimal(row + 1) + " " + Decimal(col + 1)) == Some((row, col))
  {
    DecimalHasNoWhitespace(row + 1);
    DecimalHasNoWhitespace(col + 1);
    TrimmedTwoWords(Decimal(row + 1), Decimal(col + 1));
    ParseDecimal(row + 1, USIZE_LIMIT);
    ParseDecimal(col + 1, USIZE_LIMIT);
  }

  /** A number outside 1..3 in either place is refused. */
  lemma ParseOutOfRange(row: nat, col: nat)
    requires row < USIZE_LIMIT && col < USIZE_LIMIT
    requires row == 0 || row > SIZE || col == 0 || col > SIZE
    ensures ParseCoordinates(Decimal(row) + " " + Decimal(col)).None?
  {
    DecimalHasNoWhitespace(row);
    DecimalHasNoWhitespace(col);
    TrimmedTwoWords(Decimal(row), Decimal(col));
    ParseDecimal(row, USIZE_LIMIT);
    ParseDecimal(col, USIZE_LIMIT);
  }

  /** Two words with one space between them are trimmed to themselves and
      split back into the two words. */
  lemma TrimmedTwoWords(a: string, b: string)
    requires IsToken(a) && IsToken(b)
    ensures Tokens(Trim(a + " " + b)) == [a, b]
  {
    TrimTwoWords(a, b);
    TwoWords(a, b);
  }

  lemma TrimTwoWords(a: string, b: string)
    requires IsToken(a) && IsToken(b)
    ensures Trim(a + " " + b) == a + " " + b
  {
    var line := a + " " + b;
    assert line[0] == a[0];
    assert line[|line| - 1] == b[|b| - 1];
    TrimAfterWhitespace([], line);
    assert [] + line == line;
  }

  /** The cells a sequence of input lines enters, in order: the lines that
      were read and parse. */
  function Entered(lines: seq<Option<string>>): (moves: seq<(nat, nat)>)
  {
    if lines == [] then []
    else if LineCell(lines[0]).Some? then [LineCell(lines[0]).value] + Entered(lines[1..])
    else Entered(lines[1..])
  }

  /** What a line read as `line` enters: its cell, if it was read and parses. */
  function LineCell(line: Option<string>): Option<(nat, nat)>
  {
    if line.Some? then ParseCoordinates(line.value) else None
  }

  /** The cells entered from line `k` on: line `k`'s cell, if it has one,
      then those of the lines after it. */
  lemma EnteredFrom(lines: seq<Option<string>>, k: nat, rc: Option<(nat, nat)>)
    requires k < |lines| && rc == LineCell(lines[k])
    ensures Entered(lines[k..]) == (if rc.Some? then [rc.value] else []) + Entered(lines[k + 1..])
  {
    assert lines[k..][1..] == lines[k + 1..];
  }

  /** The input loop (`get_player_input`, and the inner loop of the
      converted program's `main`), reading from line `from` on: lines are
      read until one parses; a failed read (`None`) or a line that does not
      parse is skipped. Returns the cell and the position after the line it
      came from, or `None` when the input runs out; the cell is the first
      one the remaining lines enter, so every line skipped enters none. */
  method ReadCoordinates(lines: seq<Option<string>>, from: nat) returns (rc: Option<(nat, nat)>, next: nat)
    requires from <= |lines|
    ensures from <= next <= |lines|
    ensures rc.Some? ==> from < next && lines[next - 1].Some? && ParseCoordinates(lines[next - 1].value) == rc
    ensures rc.Some? ==> Entered(lines[from..]) == [rc.value] + Entered(lines[next..])
    ensures rc.None? ==> next == |lines| && Entered(lines[from..]) == []
  {
    next := from;
    while next < |lines|
      invariant from <= next <= |lines|
      invariant Entered(lines[from..]) == Entered(lines[next..])
    {
      var cell := LineCell(lines[next]);
      EnteredFrom(lines, next, cell);
      next := next + 1;
      if cell.Some? {
        return cell, next;
      }
    }
    rc := None;
    assert lines[next..] == [];
  }
}
