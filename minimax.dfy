/**
  The computer opponent's exhaustive minimax search (playWComp.js). The
  computer plays X and maximises; the human plays O and minimises. A won
  position scores +10 for the computer and -10 for the human, a full board 0.
 */
module Minimax {
  import opened Board

  /**
    A search result: a terminal position carries only a score; otherwise the
    chosen cell and its score (the source's `{ index, score }`).
   */
  datatype Choice = Scored(score: int) | Placed(index: nat, score: int)

  /** The indices of the empty cells from `i` on, in increasing order (`availSpots`). */
  function AvailFrom(b: Board, i: nat): (spots: seq<nat>)
    requires i <= 9
    ensures forall j :: 0 <= j < |spots| ==> i <= spots[j] < 9 && b[spots[j]] == Empty
    ensures forall c :: i <= c < 9 && b[c] == Empty ==> c in spots
    ensures forall j, l :: 0 <= j < l < |spots| ==> spots[j] < spots[l]
    decreases 9 - i
  {
    if i == 9 then []
    else if b[i] == Empty then [i] + AvailFrom(b, i + 1)
    else AvailFrom(b, i + 1)
  }

  function Avail(b: Board): (spots: seq<nat>)
  {
    AvailFrom(b, 0)
  }

  /** `p`'s comparison when it picks among scores: strictly greater for X, strictly less for O. */
  predicate Better(p: Player, s: int, t: int)
  {
    if p == X then s > t else s < t
  }

  /** `k` is the first index holding `p`'s best score in `s`. */
  ghost predicate IsFirstBest(s: seq<int>, p: Player, k: nat)
  {
    && k < |s|
    && (forall j :: 0 <= j < |s| ==> !Better(p, s[j], s[k]))
    && (forall j :: 0 <= j < k ==> Better(p, s[k], s[j]))
  }

  /**
    The selection loop over the scores, keeping the earlier index unless a
    later score is strictly better.
   */
  function ArgBest(s: seq<int>, p: Player): (k: nat)
    requires |s| > 0
    ensures k < |s|
  {
    if |s| == 1 then 0
    else
      var k := ArgBest(s[..|s| - 1], p);
      if Better(p, s[|s| - 1], s[k]) then |s| - 1 else k
  }

  /** The running selection finds the first index of the best score. */
  lemma {:induction false} ArgBestIsFirstBest(s: seq<int>, p: Player)
    requires |s| > 0
    ensures IsFirstBest(s, p, ArgBest(s, p))
  {
    if |s| > 1 {
      var s' := s[..|s| - 1];
      ArgBestIsFirstBest(s', p);
      assert forall j :: 0 <= j < |s'| ==> s'[j] == s[j];
    }
  }

  /** The position after `p` plays the empty cell `i`. */
  function Play(b: Board, i: nat, p: Player): Board
    requires i < 9
  {
    b[i := Taken(p)]
  }

  /** The terminal tests in the order the search makes them. */
  predicate Terminal(b: Board)
  {
    HasLine(b, O) || HasLine(b, X) || Avail(b) == []
  }

  /** The search's terminal test agrees with the game's: some line complete, or no empty cell. */
  lemma TerminalIsOver(b: Board)
    ensures Terminal(b) <==> AnyComplete(b) || Full(b)
    ensures Avail(b) == [] <==> Full(b)
  {
    AnyCompleteIsHasLine(b);
    if !Full(b) {
      var c :| 0 <= c < 9 && b[c] == Empty;
      assert c in Avail(b);
    }
  }

  /** The empty board is not terminal. */
  lemma EmptyNotTerminal()
    ensures !Terminal(EmptyBoard)
  {
    EmptyBoardFacts();
    TerminalIsOver(EmptyBoard);
  }

  /**
    `minimax(board, player)`: the value of the position with `p` to move,
    and the move that achieves it.
   */
  function Value(b: Board, p: Player): Choice
    decreases Count(b, Empty), 1
  {
    if HasLine(b, O) then Scored(-10)
    else if HasLine(b, X) then Scored(10)
    else if Avail(b) == [] then Scored(0)
    else
      var spots := Avail(b);
      var scores := ChildScores(b, p, spots);
      var k := ArgBest(scores, p);
      Placed(spots[k], scores[k])
  }

  /** The scores of playing each of `spots` in turn, the opponent then to move. */
  function ChildScores(b: Board, p: Player, spots: seq<nat>): (scores: seq<int>)
    requires forall j :: 0 <= j < |spots| ==> spots[j] < 9 && b[spots[j]] == Empty
    ensures |scores| == |spots|
    decreases Count(b, Empty), 0, |spots|
  {
    if spots == [] then []
    else
      PlaceCounts(b, spots[0], p);
      [Value(Play(b, spots[0], p), Other(p)).score] + ChildScores(b, p, spots[1..])
  }

  lemma {:induction false} ChildScoresAt(b: Board, p: Player, spots: seq<nat>, j: nat)
    requires forall j :: 0 <= j < |spots| ==> spots[j] < 9 && b[spots[j]] == Empty
    requires j < |spots|
    ensures ChildScores(b, p, spots)[j] == Value(Play(b, spots[j], p), Other(p)).score
    decreases j
  {
    if j > 0 {
      ChildScoresAt(b, p, spots[1..], j - 1);
    }
  }

  /** The terminal scores: a human line first, then a computer line, then a full board. */
  lemma TerminalScores(b: Board, p: Player)
    ensures HasLine(b, O) ==> Value(b, p) == Scored(-10)
    ensures !HasLine(b, O) && HasLine(b, X) ==> Value(b, p) == Scored(10)
    ensures !HasLine(b, O) && !HasLine(b, X) && Full(b) ==> Value(b, p) == Scored(0)
    ensures Terminal(b) <==> Value(b, p).Scored?
  {
  }

  /** On a position that is not terminal the search names an empty cell. */
  lemma ValuePlacesOnEmpty(b: Board, p: Player)
    requires !Terminal(b)
    ensures Value(b, p).Placed? && Value(b, p).index < 9 && b[Value(b, p).index] == Empty
  {
  }

  /**
    On a position that is not terminal, the chosen cell's score is the score
    of playing it; no empty cell scores better for the mover (the maximum
    for X, the minimum for O); and every empty cell before it scores strictly
    worse, so ties go to the lowest index.
   */
  lemma ValueIsBest(b: Board, p: Player)
    requires !Terminal(b)
    ensures var v := Value(b, p);
      && v.Placed? && v.index < 9 && b[v.index] == Empty
      && v.score == Value(Play(b, v.index, p), Other(p)).score
      && (forall i :: 0 <= i < 9 && b[i] == Empty ==> !Better(p, Value(Play(b, i, p), Other(p)).score, v.score))
      && (forall i :: 0 <= i < v.index && b[i] == Empty ==> Better(p, v.score, Value(Play(b, i, p), Other(p)).score))
  {
    var spots := Avail(b);
    var scores := ChildScores(b, p, spots);
    var k := ArgBest(scores, p);
    var v := Placed(spots[k], scores[k]);
    assert Value(b, p) == v;
    ArgBestIsFirstBest(scores, p);
    ChildScoresAt(b, p, spots, k);
    forall i | 0 <= i < 9 && b[i] == Empty
      ensures !Better(p, Value(Play(b, i, p), Other(p)).score, v.score)
      ensures i < v.index ==> Better(p, v.score, Value(Play(b, i, p), Other(p)).score)
    {
      var j := AvailIndex(b, i);
      ChildScoresAt(b, p, spots, j);
      assert i < spots[k] ==> j < k;
    }
  }

  /** Where an empty cell sits in the list of available cells. */
  lemma AvailIndex(b: Board, i: nat) returns (j: nat)
    requires i < 9 && b[i] == Empty
    ensures j < |Avail(b)| && Avail(b)[j] == i
  {
    assert i in Avail(b);
    j :| 0 <= j < |Avail(b)| && Avail(b)[j] == i;
  }

  /** Every score the search returns is a terminal score: -10, 0 or 10. */
  lemma {:induction false} ValueRange(b: Board, p: Player)
    ensures Value(b, p).score in {-10, 0, 10}
    decreases Count(b, Empty)
  {
    if !Terminal(b) {
      var spots := Avail(b);
      var k := ArgBest(ChildScores(b, p, spots), p);
      ChildScoresAt(b, p, spots, k);
      PlaceCounts(b, spots[k], p);
      ValueRange(Play(b, spots[k], p), Other(p));
    }
  }

  // ---------------------------------------------------------------- the in-place search

  /**
    The search over the scratch array `a`: each trial mark is written into
    `a` and reset to empty afterwards, so `a` ends as it began.
   */
  method Search(a: array<Cell>, p: Player) returns (r: Choice)
    requires a.Length == 9
    modifies a
    ensures a[..] == old(a[..])
    ensures r == Value(old(a[..]), p)
    decreases Count(a[..], Empty), 1
  {
    var b: Board := a[..];
    var spots := Avail(b);
    if HasLine(b, O) {
      return Scored(-10);
    }
    if HasLine(b, X) {
      return Scored(10);
    }
    if |spots| == 0 {
      return Scored(0);
    }
    var moves := ScoreMoves(a, p, spots);
    var best := ChooseBest(moves, p);
    r := moves[best];
    assert Scores(moves) == ChildScores(b, p, spots);
  }

  /** The score column of a list of moves. */
  function Scores(moves: seq<Choice>): (s: seq<int>)
    ensures |s| == |moves| && forall j :: 0 <= j < |moves| ==> s[j] == moves[j].score
  {
    seq(|moves|, j requires 0 <= j < |moves| => moves[j].score)
  }

  /** The loop that tries each available cell in turn and records its score. */
  method ScoreMoves(a: array<Cell>, p: Player, spots: seq<nat>) returns (moves: seq<Choice>)
    requires a.Length == 9
    requires forall j :: 0 <= j < |spots| ==> spots[j] < 9 && a[spots[j]] == Empty
    modifies a
    ensures a[..] == old(a[..])
    ensures |moves| == |spots|
    ensures forall j :: 0 <= j < |spots| ==> moves[j] == Placed(spots[j], ChildScores(old(a[..]), p, spots)[j])
    decreases Count(a[..], Empty), 0
  {
    ghost var b: Board := a[..];
    moves := [];
    for i := 0 to |spots|
      invariant a[..] == b
      invariant |moves| == i
      invariant forall j :: 0 <= j < i ==> moves[j] == Placed(spots[j], ChildScores(b, p, spots)[j])
    {
      var idx := spots[i];
      a[idx] := Taken(p);
      assert a[..] == Play(b, idx, p);
      PlaceCounts(b, idx, p);
      var result := Search(a, Other(p));
      a[idx] := Empty;
      assert a[..] == b;
      ChildScoresAt(b, p, spots, i);
      moves := moves + [Placed(idx, result.score)];
    }
  }

  /**
    The selection loop: `bestScore` starts at minus infinity for X and plus
    infinity for O (here: no score yet) and is replaced only by a strictly
    better score, so the first best move wins.
   */
  method ChooseBest(moves: seq<Choice>, p: Player) returns (bestMove: nat)
    requires |moves| > 0
    ensures bestMove < |moves|
    ensures forall j :: 0 <= j < |moves| ==> !Better(p, moves[j].score, moves[bestMove].score)
    ensures forall j :: 0 <= j < bestMove ==> Better(p, moves[bestMove].score, moves[j].score)
    ensures bestMove == ArgBest(Scores(moves), p)
  {
    var bestScore: int := 0;
    var haveBest := false;
    bestMove := 0;
    for i := 0 to |moves|
      invariant haveBest <==> i > 0
      invariant bestMove <= i
      invariant haveBest ==> bestMove < i && bestScore == moves[bestMove].score
      invariant forall j :: 0 <= j < i ==> !Better(p, moves[j].score, bestScore)
      invariant forall j :: 0 <= j < bestMove ==> Better(p, bestScore, moves[j].score)
      invariant haveBest ==> bestMove == ArgBest(Scores(moves)[..i], p)
    {
      ghost var prefix := Scores(moves)[..i + 1];
      assert prefix[..i] == Scores(moves)[..i];
      if !haveBest || Better(p, moves[i].score, bestScore) {
        bestScore := moves[i].score;
        bestMove := i;
        haveBest := true;
      }
    }
    assert Scores(moves)[..|moves|] == Scores(moves);
  }
}
