/**
  The 3x3 board shared by the online game and the single-player game: nine
  cells, each empty or holding one player's mark, and the eight winning
  lines (three rows, three columns, two diagonals) in the order both source
  files list them.
 */
module Board {

  datatype Player = X | O

  /** A cell: the empty string `''`, or the mark `'X'` / `'O'`. */
  datatype Cell = Empty | Taken(owner: Player)

  type Board = b: seq<Cell> | |b| == 9
    witness [Empty, Empty, Empty, Empty, Empty, Empty, Empty, Empty, Empty]

  const EmptyBoard: Board := [Empty, Empty, Empty, Empty, Empty, Empty, Empty, Empty, Empty]

  /** The opponent of `p`. */
  function Other(p: Player): (q: Player)
    ensures q != p
  {
    if p == X then O else X
  }

  /** The `k`-th winning line, in the order rows, columns, diagonals. */
  function Line(k: nat): (l: (nat, nat, nat))
    requires k < 8
    ensures l.0 < 9 && l.1 < 9 && l.2 < 9
    ensures l.0 != l.1 && l.1 != l.2 && l.0 != l.2
  {
    if k == 0 then (0, 1, 2)
    else if k == 1 then (3, 4, 5)
    else if k == 2 then (6, 7, 8)
    else if k == 3 then (0, 3, 6)
    else if k == 4 then (1, 4, 7)
    else if k == 5 then (2, 5, 8)
    else if k == 6 then (0, 4, 8)
    else (2, 4, 6)
  }

  /** Line `k` holds three equal non-empty cells (the test `a && a === b && a === c`). */
  predicate Complete(b: Board, k: nat)
    requires k < 8
  {
    var (i, j, l) := Line(k);
    b[i] != Empty && b[i] == b[j] && b[i] == b[l]
  }

  /** Every cell of line `k` holds `p`'s mark. */
  predicate LineOf(b: Board, k: nat, p: Player)
    requires k < 8
  {
    var (i, j, l) := Line(k);
    b[i] == Taken(p) && b[j] == Taken(p) && b[l] == Taken(p)
  }

  /** Some line is complete. */
  predicate AnyComplete(b: Board)
  {
    exists k :: 0 <= k < 8 && Complete(b, k)
  }

  /** `p` owns a whole line. */
  predicate HasLine(b: Board, p: Player)
  {
    exists k :: 0 <= k < 8 && LineOf(b, k, p)
  }

  /** No cell is empty (`!board.includes('')`). */
  predicate Full(b: Board)
  {
    Empty !in b
  }

  /** The number of cells holding `c`. */
  function Count(b: Board, c: Cell): nat
  {
    multiset(b)[c]
  }

  /** A complete line is a line owned by the player in its first cell, and conversely. */
  lemma CompleteIsLineOf(b: Board, k: nat)
    requires k < 8
    ensures Complete(b, k) <==> (exists p :: LineOf(b, k, p))
    ensures Complete(b, k) ==> LineOf(b, k, b[Line(k).0].owner)
  {
    var (i, j, l) := Line(k);
    if Complete(b, k) {
      assert LineOf(b, k, b[i].owner);
    }
  }

  /** Some line is complete exactly when one of the two players owns a line. */
  lemma AnyCompleteIsHasLine(b: Board)
    ensures AnyComplete(b) <==> HasLine(b, X) || HasLine(b, O)
  {
    if AnyComplete(b) {
      var k :| 0 <= k < 8 && Complete(b, k);
      CompleteIsLineOf(b, k);
      var p := b[Line(k).0].owner;
      assert LineOf(b, k, p);
      if p == X { assert HasLine(b, X); } else { assert HasLine(b, O); }
    }
    if HasLine(b, X) {
      var k :| 0 <= k < 8 && LineOf(b, k, X);
      CompleteIsLineOf(b, k);
    }
    if HasLine(b, O) {
      var k :| 0 <= k < 8 && LineOf(b, k, O);
      CompleteIsLineOf(b, k);
    }
  }

  /** Marking an empty cell adds one mark for that player and takes one empty cell away. */
  lemma PlaceCounts(b: Board, i: nat, p: Player)
    requires i < 9 && b[i] == Empty
    ensures Count(b[i := Taken(p)], Taken(p)) == Count(b, Taken(p)) + 1
    ensures Count(b[i := Taken(p)], Taken(Other(p))) == Count(b, Taken(Other(p)))
    ensures Count(b[i := Taken(p)], Empty) == Count(b, Empty) - 1
  {
    assert multiset(b[i := Taken(p)]) == multiset(b) - multiset{Empty} + multiset{Taken(p)};
  }

  /** The empty board has no mark and no complete line. */
  lemma EmptyBoardFacts()
    ensures Count(EmptyBoard, Taken(X)) == 0 && Count(EmptyBoard, Taken(O)) == 0
    ensures !AnyComplete(EmptyBoard) && !HasLine(EmptyBoard, X) && !HasLine(EmptyBoard, O)
    ensures !Full(EmptyBoard)
  {
    assert EmptyBoard[0] == Empty;
  }
}
