/**
  The single-player game against the computer (playWComp.js): the board,
  whose turn it is and whether the game is still on are state that the
  handlers update in place. The computer plays X and moves first.
 */
module LocalGame {
  import opened Common
  import opened Board
  import opened Minimax

  /** What the announcer shows when a game ends. */
  datatype Announcement = PlayerOWins | PlayerXWins | TieAnnounced

  const ComputerPlayer: Player := X
  const HumanPlayer: Player := O

  /** A freshly allocated board of nine empty cells, a position that is not terminal. */
  method NewEmptyBoard() returns (a: array<Cell>)
    ensures fresh(a) && a.Length == 9 && a[..] == EmptyBoard && !Terminal(a[..])
  {
    a := new Cell[9](_ => Empty);
    assert a[..] == EmptyBoard;
    EmptyNotTerminal();
  }

  class Game {
    var board: array<Cell>
    var currentPlayer: Player
    var isGameActive: bool

    /** The board has nine cells, and a game still on has not reached a terminal position. */
    ghost predicate Valid()
      reads this, board
    {
      board.Length == 9 && (isGameActive ==> !Terminal(board[..]))
    }

    /** The initial state: an empty board, the computer to move, the game on. */
    constructor ()
      ensures Valid() && fresh(board)
      ensures board[..] == EmptyBoard && currentPlayer == ComputerPlayer && isGameActive
    {
      var cleared := NewEmptyBoard();
      board := cleared;
      currentPlayer := ComputerPlayer;
      isGameActive := true;
    }

    /**
      `handleResultValidation`: scan the lines; a complete one ends the game
      as a win of the player who just moved (`currentPlayer`); otherwise a
      board without an empty cell ends it as a tie; otherwise nothing changes.
     */
    method HandleResultValidation() returns (ann: Option<Announcement>)
      requires board.Length == 9
      modifies this`isGameActive
      ensures AnyComplete(board[..]) ==>
                !isGameActive && ann == Some(if currentPlayer == HumanPlayer then PlayerOWins else PlayerXWins)
      ensures !AnyComplete(board[..]) && Full(board[..]) ==> !isGameActive && ann == Some(TieAnnounced)
      ensures !AnyComplete(board[..]) && !Full(board[..]) ==> isGameActive == old(isGameActive) && ann == None
    {
      ghost var b: Board := board[..];
      var roundWon := false;
      var i := 0;
      while i < 8 && !roundWon
        invariant 0 <= i <= 8
        invariant roundWon ==> AnyComplete(b)
        invariant !roundWon ==> forall k :: 0 <= k < i ==> !Complete(b, k)
        decreases 8 - i, if roundWon then 0 else 1
      {
        var (aIdx, bIdx, cIdx) := Line(i);
        var a, bb, c := board[aIdx], board[bIdx], board[cIdx];
        if a != Empty && a == bb && bb == c {
          assert Complete(b, i);
          roundWon := true;
        } else {
          i := i + 1;
        }
      }
      if roundWon {
        ann := Some(if currentPlayer == HumanPlayer then PlayerOWins else PlayerXWins);
        isGameActive := false;
        return;
      }
      if Empty !in board[..] {
        ann := Some(TieAnnounced);
        isGameActive := false;
      } else {
        ann := None;
      }
    }

    /**
      `isValidAction`: the tile is empty. (The tile's text is written and
      cleared together with the board cell, so the board alone decides.)
     */
    predicate IsValidAction(index: nat)
      requires index < board.Length
      reads this, board
    {
      board[index] == Empty
    }

    /** `updateBoard(index)`: the current player's mark goes into cell `index`. */
    method UpdateBoard(index: nat)
      requires index < board.Length
      modifies board
      ensures board[..] == old(board[..])[index := Taken(currentPlayer)]
    {
      board[index] := Taken(currentPlayer);
    }

    /** `changePlayer`: the turn passes to the other player. */
    method ChangePlayer()
      modifies this`currentPlayer
      ensures currentPlayer == Other(old(currentPlayer))
    {
      currentPlayer := if currentPlayer == HumanPlayer then ComputerPlayer else HumanPlayer;
    }

    /**
      `userAction(index)`: nothing happens unless the cell is empty, the game
      is on and it is the human's turn. Otherwise O goes into the cell, the
      result is checked, and if the game is still on the turn passes to the
      computer, which moves next (`computerNext`).
     */
    method UserAction(index: nat) returns (ann: Option<Announcement>, computerNext: bool)
      requires Valid() && index < 9
      modifies this, board
      ensures Valid() && board == old(board)
      ensures !(old(board[index]) == Empty && old(isGameActive) && old(currentPlayer) == HumanPlayer) ==>
                && board[..] == old(board[..]) && currentPlayer == old(currentPlayer)
                && isGameActive == old(isGameActive) && ann == None && !computerNext
      ensures old(board[index]) == Empty && old(isGameActive) && old(currentPlayer) == HumanPlayer ==>
                && board[..] == old(board[..])[index := Taken(HumanPlayer)]
                && isGameActive == !(AnyComplete(board[..]) || Full(board[..]))
                && currentPlayer == (if isGameActive then ComputerPlayer else HumanPlayer)
                && computerNext == isGameActive
                && (AnyComplete(board[..]) ==> ann == Some(PlayerOWins))
                && (!AnyComplete(board[..]) ==> ann == (if Full(board[..]) then Some(TieAnnounced) else None))
    {
      ann, computerNext := None, false;
      if IsValidAction(index) && isGameActive && currentPlayer == HumanPlayer {
        UpdateBoard(index);
        ann := HandleResultValidation();
        if isGameActive {
          ChangePlayer();
          computerNext := true;
        }
        TerminalIsOver(board[..]);
      }
    }

    /**
      `computerMove`: when the game is on, search a copy of the board for the
      computer's best cell, put the current player's mark there, check the
      result and, if the game is still on, pass the turn. The game board is
      not touched by the search.
     */
    method ComputerMove() returns (ann: Option<Announcement>)
      requires Valid()
      modifies this, board
      ensures Valid() && board == old(board)
      ensures !old(isGameActive) ==>
                && board[..] == old(board[..]) && currentPlayer == old(currentPlayer)
                && !isGameActive && ann == None
      ensures old(isGameActive) ==>
                var v := Value(old(board[..]), ComputerPlayer);
                && v.Placed? && v.index < 9 && old(board[v.index]) == Empty
                && board[..] == old(board[..])[v.index := Taken(old(currentPlayer))]
                && isGameActive == !(AnyComplete(board[..]) || Full(board[..]))
                && currentPlayer == (if isGameActive then Other(old(currentPlayer)) else old(currentPlayer))
                && (AnyComplete(board[..]) ==>
                      ann == Some(if old(currentPlayer) == HumanPlayer then PlayerOWins else PlayerXWins))
                && (!AnyComplete(board[..]) ==> ann == (if Full(board[..]) then Some(TieAnnounced) else None))
    {
      if !isGameActive {
        return None;
      }
      var snapshot: Board := board[..];
      var scratch := new Cell[9](i requires 0 <= i < 9 => snapshot[i]);
      assert scratch[..] == snapshot;
      var bestSpot := Search(scratch, ComputerPlayer);
      ValuePlacesOnEmpty(snapshot, ComputerPlayer);
      UpdateBoard(bestSpot.index);
      ann := HandleResultValidation();
      if isGameActive {
        ChangePlayer();
      }
      TerminalIsOver(board[..]);
    }

    /**
      `resetBoard`: a fresh empty board, the game on, the computer to move
      next (`computerNext`).
     */
    method ResetBoard() returns (computerNext: bool)
      modifies this
      ensures Valid() && fresh(board)
      ensures board[..] == EmptyBoard && isGameActive && currentPlayer == ComputerPlayer && computerNext
    {
      board := NewEmptyBoard();
      isGameActive := true;
      currentPlayer := ComputerPlayer;
      computerNext := true;
    }
  }
}
