/**
  The online two-player match (dash.js). A match is one record in the remote
  document store; each remote read is a parameter here and each remote
  `update` / `set` / batch is a field-wise change to a `Match` value.
  `FieldValue.increment(1)` is `+ 1` on the value the store holds.
 */
module Online {
  import opened Common
  import opened Board

  datatype Status = Waiting | Active | Finished

  /** The `winner` field's non-null values: `'X'`, `'O'` or `'Tie'`. */
  datatype Winner = Won(player: Player) | Tie

  /** A signed-in user's id; the backend never issues an empty one. */
  type UserId = s: string | |s| > 0 witness "u"

  /** The match record (`createdAt` is a server timestamp and is left out). */
  datatype Match = Match(
    player1Id: UserId,
    player1Name: Option<string>,
    player2Id: Option<UserId>,
    player2Name: Option<string>,
    player1Wins: nat,
    player2Wins: nat,
    p1StatsUpdated: bool,
    p2StatsUpdated: bool,
    board: Board,
    currentPlayer: Player,
    status: Status,
    winner: Option<Winner>)

  /** The lifetime counters of a user's profile record. */
  datatype UserStats = UserStats(gamesPlayed: nat, gamesWon: nat)

  // ---------------------------------------------------------------- checkWinner

  /** Line `k` is complete and no earlier line is. */
  ghost predicate FirstCompleteAt(b: Board, k: nat)
  {
    k < 8 && Complete(b, k) && forall j :: 0 <= j < k ==> !Complete(b, j)
  }

  /** The scan of the winning lines from line `i` on, stopping at the first complete one. */
  function FirstComplete(b: Board, i: nat): (r: Option<Player>)
    requires i <= 8
    ensures r.None? <==> forall k :: i <= k < 8 ==> !Complete(b, k)
    ensures r.Some? ==> exists k :: i <= k < 8 && Complete(b, k) && b[Line(k).0] == Taken(r.value)
                                    && forall j :: i <= j < k ==> !Complete(b, j)
    decreases 8 - i
  {
    if i == 8 then None
    else if Complete(b, i) then Some(b[Line(i).0].owner)
    else FirstComplete(b, i + 1)
  }

  /**
    `checkWinner`: the mark of the first complete line in the listed order;
    otherwise a tie when no cell is empty; otherwise no result (`null`).
   */
  function CheckWinner(b: Board): Option<Winner>
  {
    match FirstComplete(b, 0)
    case Some(p) => Some(Won(p))
    case None => if Full(b) then Some(Tie) else None
  }

  /** When line `k` is the first complete line, its mark is the winner; that player owns a line. */
  lemma CheckWinnerFirstLine(b: Board, k: nat)
    requires FirstCompleteAt(b, k)
    ensures CheckWinner(b) == Some(Won(b[Line(k).0].owner))
    ensures HasLine(b, b[Line(k).0].owner)
  {
    var r := FirstComplete(b, 0);
    var k' :| 0 <= k' < 8 && Complete(b, k') && b[Line(k').0] == Taken(r.value)
              && forall j :: 0 <= j < k' ==> !Complete(b, j);
    assert k' == k;
    CompleteIsLineOf(b, k);
  }

  /** With no complete line the verdict is a tie on a full board and `null` otherwise. */
  lemma CheckWinnerNoLine(b: Board)
    requires !AnyComplete(b)
    ensures CheckWinner(b) == (if Full(b) then Some(Tie) else None)
  {
    assert FirstComplete(b, 0).None?;
  }

  /** The verdict names a player exactly when some line is complete. */
  lemma CheckWinnerWon(b: Board)
    ensures (CheckWinner(b).Some? && CheckWinner(b).value.Won?) <==> AnyComplete(b)
    ensures CheckWinner(b).Some? && CheckWinner(b).value.Won? ==> HasLine(b, CheckWinner(b).value.player)
  {
    var r := FirstComplete(b, 0);
    if r.Some? {
      var k :| 0 <= k < 8 && Complete(b, k) && b[Line(k).0] == Taken(r.value)
               && forall j :: 0 <= j < k ==> !Complete(b, j);
      CheckWinnerFirstLine(b, k);
    }
  }

  // ---------------------------------------------------------------- consistency

  /** X moves first, so X has as many marks as O when X is next and one more when O is. */
  predicate Balanced(b: Board, next: Player)
  {
    Count(b, Taken(X)) == Count(b, Taken(O)) + (if next == O then 1 else 0)
  }

  /**
    What a match record looks like between the transitions below: the marks
    alternate; a match waits exactly while it has no second player; a waiting
    match has an empty board; an active one has no result yet; a finished one
    records the evaluator's verdict on its board.
   */
  predicate Consistent(m: Match)
  {
    && Balanced(m.board, m.currentPlayer)
    && (m.player2Id.None? <==> m.status == Waiting)
    && (m.status == Waiting ==> m.board == EmptyBoard && m.winner == None)
    && (m.status == Active ==> m.winner == None && CheckWinner(m.board) == None)
    && (m.status == Finished ==> m.winner.Some? && m.winner == CheckWinner(m.board))
  }

  // ---------------------------------------------------------------- creating and joining

  /** The record `handleMakeGame` writes for a new match. */
  function NewGame(uid: UserId, name: Option<string>): (m: Match)
    ensures m.status == Waiting && m.currentPlayer == X && m.board == EmptyBoard && m.winner == None
    ensures m.player1Id == uid && m.player1Name == name && m.player2Id == None && m.player2Name == None
    ensures m.player1Wins == 0 && m.player2Wins == 0 && !m.p1StatsUpdated && !m.p2StatsUpdated
    ensures Consistent(m)
  {
    EmptyBoardFacts();
    Match(uid, name, None, None, 0, 0, false, false, EmptyBoard, X, Waiting, None)
  }

  /** `Math.floor(100000 + r * 900000)` for a draw `r` of `Math.random()`. */
  function GameNumber(r: real): (n: nat)
    requires 0.0 <= r < 1.0
    ensures 100000 <= n <= 999999
  {
    (100000.0 + r * 900000.0).Floor as nat
  }

  function DigitChar(d: nat): (c: char)
    requires d < 10
    ensures '0' <= c <= '9'
  {
    ['0', '1', '2', '3', '4', '5', '6', '7', '8', '9'][d]
  }

  /** `n.toString()` for a non-negative integer: its decimal digits, most significant first. */
  function Decimal(n: nat): (s: string)
    ensures |s| > 0 && forall i :: 0 <= i < |s| ==> '0' <= s[i] <= '9'
  {
    if n < 10 then [DigitChar(n)] else Decimal(n / 10) + [DigitChar(n % 10)]
  }

  /** A number from 10^(k-1) to 10^k - 1 has exactly `k` decimal digits. */
  lemma {:induction false} DecimalLength(n: nat, k: nat)
    requires k > 0
    requires Pow10(k - 1) <= n < Pow10(k)
    ensures |Decimal(n)| == k
  {
    if n >= 10 {
      DecimalLength(n / 10, k - 1);
    }
  }

  function Pow10(k: nat): (p: nat)
    ensures p >= 1
  {
    if k == 0 then 1 else 10 * Pow10(k - 1)
  }

  /** The number a string of decimal digits spells, most significant digit first. */
  function DigitsValue(s: string): nat
    requires forall i :: 0 <= i < |s| ==> '0' <= s[i] <= '9'
  {
    if s == [] then 0 else 10 * DigitsValue(s[..|s| - 1]) + (s[|s| - 1] as int - '0' as int)
  }

  /** The digits `toString` prints spell the number back. */
  lemma {:induction false} DecimalValue(n: nat)
    ensures DigitsValue(Decimal(n)) == n
  {
    var s := Decimal(n);
    if n >= 10 {
      DecimalValue(n / 10);
      assert s[..|s| - 1] == Decimal(n / 10);
    }
    assert s[|s| - 1] as int - '0' as int == n % 10;
  }

  /** The game id generated from one random draw: six digits spelling the drawn number. */
  function GameId(r: real): (id: string)
    requires 0.0 <= r < 1.0
    ensures |id| == 6 && forall i :: 0 <= i < 6 ==> '0' <= id[i] <= '9'
    ensures DigitsValue(id) == GameNumber(r)
  {
    var n := GameNumber(r);
    assert Pow10(5) == 100000 && Pow10(6) == 1000000;
    DecimalLength(n, 6);
    DecimalValue(n);
    Decimal(n)
  }

  /** The fields `handleJoinGame` writes when a second player joins. */
  function JoinUpdate(m: Match, uid: UserId, name: Option<string>): (r: Match)
    ensures r.player2Id == Some(uid) && r.player2Name == name && r.status == Active
    ensures r.(player2Id := m.player2Id, player2Name := m.player2Name, status := m.status) == m
  {
    m.(player2Id := Some(uid), player2Name := name, status := Active)
  }

  /** The outcome `handleJoinGame` reports. */
  datatype JoinResult = NoId | NotFound | AlreadyFull | Joined

  lemma JoinKeepsConsistent(m: Match, uid: UserId, name: Option<string>)
    requires Consistent(m) && m.player2Id.None?
    ensures Consistent(JoinUpdate(m, uid, name))
  {
    EmptyBoardFacts();
  }

  // ---------------------------------------------------------------- reset round

  /** The fields the reset-round handler writes. */
  function ResetUpdate(m: Match): (r: Match)
    ensures r.board == EmptyBoard && r.currentPlayer == X && r.status == Active && r.winner == None
    ensures !r.p1StatsUpdated && !r.p2StatsUpdated
    ensures r.player1Id == m.player1Id && r.player2Id == m.player2Id
    ensures r.player1Name == m.player1Name && r.player2Name == m.player2Name
    ensures r.player1Wins == m.player1Wins && r.player2Wins == m.player2Wins
  {
    m.(board := EmptyBoard, currentPlayer := X, status := Active, winner := None,
       p1StatsUpdated := false, p2StatsUpdated := false)
  }

  /** The reset button is shown only once a second player is in (status active or finished). */
  lemma ResetKeepsConsistent(m: Match)
    requires Consistent(m) && m.status != Waiting
    ensures Consistent(ResetUpdate(m))
  {
    EmptyBoardFacts();
    assert CheckWinner(EmptyBoard) == None;
  }

  // ---------------------------------------------------------------- moves

  /** The fields `handleTileClick` sends: the new board, the next player and, when terminal, the result. */
  datatype MoveUpdate = MoveUpdate(board: Board, currentPlayer: Player, result: Option<Winner>)

  /**
    `handleTileClick(index, snapshot)` for a player whose symbol is `mySymbol`:
    no update unless the snapshot's match is active, the cell is empty and it
    is this player's turn; otherwise the snapshot's board with the cell marked,
    the turn passed on, and the evaluator's verdict on the new board.
   */
  function TileClick(index: nat, snapshot: Match, mySymbol: Player): (u: Option<MoveUpdate>)
    requires index < 9
    ensures u.Some? <==> snapshot.status == Active && snapshot.board[index] == Empty
                         && snapshot.currentPlayer == mySymbol
    ensures u.Some? ==> u.value.board[index] == Taken(mySymbol)
                        && (forall j :: 0 <= j < 9 && j != index ==> u.value.board[j] == snapshot.board[j])
                        && u.value.currentPlayer == Other(mySymbol)
                        && u.value.result == CheckWinner(u.value.board)
  {
    if snapshot.status != Active || snapshot.board[index] != Empty || snapshot.currentPlayer != mySymbol then
      None
    else
      var newBoard := snapshot.board[index := Taken(mySymbol)];
      var nextPlayer := if mySymbol == X then O else X;
      Some(MoveUpdate(newBoard, nextPlayer, CheckWinner(newBoard)))
  }

  /**
    The store merging a move update into the record it holds: board and turn
    are overwritten; a result sets status and winner and increments the
    winner's counter.
   */
  function ApplyMove(m: Match, u: MoveUpdate): Match
  {
    match u.result
    case None => m.(board := u.board, currentPlayer := u.currentPlayer)
    case Some(w) =>
      m.(board := u.board, currentPlayer := u.currentPlayer, status := Finished, winner := Some(w),
         player1Wins := if w == Won(X) then m.player1Wins + 1 else m.player1Wins,
         player2Wins := if w == Won(O) then m.player2Wins + 1 else m.player2Wins)
  }

  /**
    An accepted move applied to the record it was computed from: the match
    finishes exactly when the new board is terminal, with the evaluator's
    verdict; player 1's counter rises by one exactly on an X win, player 2's
    exactly on an O win, neither on a tie; players, names and flags stay.
   */
  lemma MoveEffect(index: nat, m: Match, mySymbol: Player)
    requires index < 9 && TileClick(index, m, mySymbol).Some?
    ensures var r := ApplyMove(m, TileClick(index, m, mySymbol).value);
      && r.board == m.board[index := Taken(mySymbol)]
      && r.currentPlayer == Other(m.currentPlayer)
      && (r.status == Finished <==> CheckWinner(r.board).Some?)
      && (r.status != Finished ==> r.status == m.status && r.winner == m.winner)
      && (r.status == Finished ==> r.winner == CheckWinner(r.board))
      && r.player1Wins == m.player1Wins + (if r.winner == Some(Won(X)) && r.status == Finished then 1 else 0)
      && r.player2Wins == m.player2Wins + (if r.winner == Some(Won(O)) && r.status == Finished then 1 else 0)
      && r.player1Id == m.player1Id && r.player2Id == m.player2Id
      && r.player1Name == m.player1Name && r.player2Name == m.player2Name
      && r.p1StatsUpdated == m.p1StatsUpdated && r.p2StatsUpdated == m.p2StatsUpdated
  {
    var u := TileClick(index, m, mySymbol).value;
    assert u.board == m.board[index := Taken(mySymbol)];
  }

  /** An accepted move applied to the record it was computed from keeps the record consistent. */
  lemma MoveKeepsConsistent(index: nat, m: Match, mySymbol: Player)
    requires index < 9 && Consistent(m) && TileClick(index, m, mySymbol).Some?
    ensures Consistent(ApplyMove(m, TileClick(index, m, mySymbol).value))
  {
    var u := TileClick(index, m, mySymbol).value;
    assert u.board == m.board[index := Taken(mySymbol)];
    PlaceCounts(m.board, index, mySymbol);
  }

  /**
    The worked example of a winning move: X holds cells 0 and 1, O holds 3
    and 4, and X plays cell 2.
   */
  lemma WinningMoveExample(m: Match)
    requires m.board == [Taken(X), Taken(X), Empty, Taken(O), Taken(O), Empty, Empty, Empty, Empty]
    requires m.currentPlayer == X && m.status == Active
    ensures TileClick(2, m, X).Some?
    ensures var r := ApplyMove(m, TileClick(2, m, X).value);
      r.status == Finished && r.winner == Some(Won(X))
      && r.player1Wins == m.player1Wins + 1 && r.player2Wins == m.player2Wins
  {
    var b := m.board[2 := Taken(X)];
    assert FirstCompleteAt(b, 0);
  }

  // ---------------------------------------------------------------- stats reconciliation

  /**
    What `handleGameFinish` writes: the stats flags of the seats the user
    holds (into the match) and whether the round counts as a win (into the
    user's profile, beside the games-played increment).
   */
  datatype StatsUpdate = StatsUpdate(setP1: bool, setP2: bool, won: bool)

  /** `handleGameFinish(snapshot)` for the signed-in user `uid`. */
  function HandleGameFinish(uid: UserId, m: Match): (r: Option<StatsUpdate>)
    ensures r.Some? <==> m.status == Finished
                         && !((uid == m.player1Id && m.p1StatsUpdated) || (m.player2Id == Some(uid) && m.p2StatsUpdated))
    ensures r.Some? ==> r.value.setP1 == (uid == m.player1Id) && r.value.setP2 == (m.player2Id == Some(uid))
  {
    var amIPlayer1 := uid == m.player1Id;
    var amIPlayer2 := m.player2Id == Some(uid);
    var alreadyUpdated := (amIPlayer1 && m.p1StatsUpdated) || (amIPlayer2 && m.p2StatsUpdated);
    if m.status == Finished && !alreadyUpdated then
      Some(StatsUpdate(amIPlayer1, amIPlayer2,
                       (amIPlayer1 && m.winner == Some(Won(X))) || (amIPlayer2 && m.winner == Some(Won(O)))))
    else
      None
  }

  /** The batch's update of the match record. */
  function ApplyFlags(m: Match, su: StatsUpdate): Match
  {
    m.(p1StatsUpdated := m.p1StatsUpdated || su.setP1, p2StatsUpdated := m.p2StatsUpdated || su.setP2)
  }

  /** The batch's update of the user's profile record. */
  function ApplyUserStats(s: UserStats, su: StatsUpdate): UserStats
  {
    UserStats(s.gamesPlayed + 1, if su.won then s.gamesWon + 1 else s.gamesWon)
  }

  /** The user's symbol as the snapshot handler derives it. */
  function MySymbol(uid: UserId, m: Match): (p: Player)
    ensures p == X <==> uid == m.player1Id
  {
    if uid == m.player1Id then X else O
  }

  /** The snapshot handler's `isGameActive`: the match is still waiting or being played. */
  function IsGameActive(m: Match): (b: bool)
    ensures b <==> m.status != Finished
  {
    m.status == Active || m.status == Waiting
  }

  /**
    For a player of the match, once the batch has set the flags, the same
    handler finds nothing further to do: a round is credited at most once.
   */
  lemma StatsAppliedOnce(uid: UserId, m: Match)
    requires uid == m.player1Id || m.player2Id == Some(uid)
    requires HandleGameFinish(uid, m).Some?
    ensures HandleGameFinish(uid, ApplyFlags(m, HandleGameFinish(uid, m).value)) == None
  {
  }

  /**
    Crediting a finished round to a user who holds one seat: one more game
    played, and one more game won exactly when the user's symbol is the winner.
   */
  lemma StatsCreditWinner(uid: UserId, m: Match, s: UserStats)
    requires (uid == m.player1Id) != (m.player2Id == Some(uid))
    requires HandleGameFinish(uid, m).Some?
    ensures var s' := ApplyUserStats(s, HandleGameFinish(uid, m).value);
      && s'.gamesPlayed == s.gamesPlayed + 1
      && (s'.gamesWon == s.gamesWon + 1 <==> m.winner == Some(Won(MySymbol(uid, m))))
      && (s'.gamesWon == s.gamesWon || s'.gamesWon == s.gamesWon + 1)
  {
  }

  /** The flags the batch sets do not take part in consistency. */
  lemma FlagsKeepConsistent(m: Match, su: StatsUpdate)
    requires Consistent(m)
    ensures Consistent(ApplyFlags(m, su))
  {
  }

  // ---------------------------------------------------------------- the store

  /** Every match of a collection is consistent. */
  ghost predicate AllConsistent(games: map<string, Match>)
  {
    forall id :: id in games ==> Consistent(games[id])
  }

  /** Storing a consistent record keeps every record of the collection consistent. */
  lemma StoreKeepsConsistent(games: map<string, Match>, id: string, m: Match)
    ensures AllConsistent(games) && Consistent(m) ==> AllConsistent(games[id := m])
  {
  }

  lemma JoinKeepsAllConsistent(games: map<string, Match>, id: string, uid: UserId, name: Option<string>)
    requires id in games
    ensures AllConsistent(games) && games[id].player2Id.None? ==>
              AllConsistent(games[id := JoinUpdate(games[id], uid, name)])
  {
    if AllConsistent(games) && games[id].player2Id.None? {
      JoinKeepsConsistent(games[id], uid, name);
      StoreKeepsConsistent(games, id, JoinUpdate(games[id], uid, name));
    }
  }

  lemma ResetKeepsAllConsistent(games: map<string, Match>, id: string)
    requires id in games
    ensures AllConsistent(games) && games[id].status != Waiting ==> AllConsistent(games[id := ResetUpdate(games[id])])
  {
    if AllConsistent(games) && games[id].status != Waiting {
      ResetKeepsConsistent(games[id]);
      StoreKeepsConsistent(games, id, ResetUpdate(games[id]));
    }
  }

  lemma FlagsKeepAllConsistent(games: map<string, Match>, id: string, su: StatsUpdate)
    requires id in games
    ensures AllConsistent(games) ==> AllConsistent(games[id := ApplyFlags(games[id], su)])
  {
    if AllConsistent(games) {
      FlagsKeepConsistent(games[id], su);
      StoreKeepsConsistent(games, id, ApplyFlags(games[id], su));
    }
  }

  lemma MoveKeepsAllConsistent(games: map<string, Match>, id: string, index: nat, mySymbol: Player)
    requires id in games && index < 9 && TileClick(index, games[id], mySymbol).Some?
    ensures AllConsistent(games) ==>
              AllConsistent(games[id := ApplyMove(games[id], TileClick(index, games[id], mySymbol).value)])
  {
    if AllConsistent(games) {
      MoveKeepsConsistent(index, games[id], mySymbol);
      StoreKeepsConsistent(games, id, ApplyMove(games[id], TileClick(index, games[id], mySymbol).value));
    }
  }

  /** What a snapshot delivery means for the session. */
  datatype SnapshotEffect = SessionEnded | Observed(stats: Option<StatsUpdate>)

  /**
    The remote document store as the core sees it: the `games` collection,
    keyed by game id, and the `users` collection of profile counters.
   */
  class GameStore {
    var games: map<string, Match>
    var users: map<UserId, UserStats>

    /** Every stored match is consistent. */
    ghost predicate Valid()
      reads this
    {
      AllConsistent(games)
    }

    constructor (profiles: map<UserId, UserStats>)
      ensures games == map[] && users == profiles && Valid()
    {
      games := map[];
      users := profiles;
    }

    /**
      `handleMakeGame`: draw ids until one is free, then create the new match
      under it. The random draws are given; if every one of them is taken the
      store is left as it was and no id is returned.
     */
    method MakeGame(uid: UserId, name: Option<string>, draws: seq<real>) returns (gameId: Option<string>)
      requires forall j :: 0 <= j < |draws| ==> 0.0 <= draws[j] < 1.0
      modifies this
      ensures users == old(users)
      ensures gameId.None? ==> games == old(games) && forall j :: 0 <= j < |draws| ==> GameId(draws[j]) in old(games)
      ensures gameId.Some? ==>
        && gameId.value !in old(games)
        && games == old(games)[gameId.value := NewGame(uid, name)]
        && exists k :: 0 <= k < |draws| && gameId.value == GameId(draws[k])
                       && forall j :: 0 <= j < k ==> GameId(draws[j]) in old(games)
      ensures old(Valid()) ==> Valid()
    {
      ghost var store := games;
      var docExists := true;
      var candidate := "";
      var i := 0;
      while docExists && i < |draws|
        invariant 0 <= i <= |draws| && games == store
        invariant docExists ==> forall j :: 0 <= j < i ==> GameId(draws[j]) in store
        invariant !docExists ==> && 0 < i && candidate == GameId(draws[i - 1]) && candidate !in store
                                 && forall j :: 0 <= j < i - 1 ==> GameId(draws[j]) in store
        decreases |draws| - i
      {
        candidate := GameId(draws[i]);
        i := i + 1;
        if candidate !in games {
          docExists := false;
        }
      }
      if docExists {
        gameId := None;
      } else {
        StoreKeepsConsistent(games, candidate, NewGame(uid, name));
        games := games[candidate := NewGame(uid, name)];
        gameId := Some(candidate);
      }
    }

    /**
      `handleJoinGame`: an empty id does nothing; an unknown id is "not
      found"; a match with a second player is "already full"; otherwise the
      user takes the second seat and the match becomes active.
     */
    method JoinGame(gameId: string, uid: UserId, name: Option<string>) returns (r: JoinResult)
      modifies this
      ensures users == old(users)
      ensures r == (if gameId == "" then NoId
                    else if gameId !in old(games) then NotFound
                    else if old(games)[gameId].player2Id.Some? then AlreadyFull
                    else Joined)
      ensures games == if r == Joined then old(games)[gameId := JoinUpdate(old(games)[gameId], uid, name)]
                       else old(games)
      ensures old(Valid()) ==> Valid()
    {
      if gameId == "" {
        return NoId;
      }
      if gameId !in games {
        return NotFound;
      }
      var gameData := games[gameId];
      if gameData.player2Id.Some? {
        return AlreadyFull;
      }
      JoinKeepsAllConsistent(games, gameId, uid, name);
      games := games[gameId := JoinUpdate(gameData, uid, name)];
      r := Joined;
    }

    /** The reset-round handler's update; an update of a deleted match fails and changes nothing. */
    method ResetRound(gameId: string)
      modifies this
      ensures users == old(users)
      ensures games == if gameId in old(games) then old(games)[gameId := ResetUpdate(old(games)[gameId])]
                       else old(games)
      ensures old(Valid()) && (gameId in old(games) ==> old(games)[gameId].status != Waiting) ==> Valid()
    {
      if gameId in games {
        ResetKeepsAllConsistent(games, gameId);
        games := games[gameId := ResetUpdate(games[gameId])];
      }
    }

    /** The delete-game handler. */
    method DeleteGame(gameId: string)
      modifies this
      ensures users == old(users) && games == old(games) - {gameId}
      ensures old(Valid()) ==> Valid()
    {
      games := games - {gameId};
    }

    /**
      The remote update of a move: merged into whatever record the store
      holds now, which may be newer than the snapshot the move was computed
      from.
     */
    method SubmitMove(gameId: string, u: MoveUpdate)
      modifies this
      ensures users == old(users)
      ensures games == if gameId in old(games) then old(games)[gameId := ApplyMove(old(games)[gameId], u)]
                       else old(games)
      ensures forall index: nat, mySymbol: Player ::
                gameId in old(games) && index < 9 && TileClick(index, old(games)[gameId], mySymbol) == Some(u) ==>
                  (old(Valid()) ==> Valid())
    {
      forall index: nat, mySymbol: Player | gameId in games && index < 9 && TileClick(index, games[gameId], mySymbol) == Some(u) {
        MoveKeepsAllConsistent(games, gameId, index, mySymbol);
      }
      if gameId in games {
        games := games[gameId := ApplyMove(games[gameId], u)];
      }
    }

    /**
      The stats batch: the match's flags and the user's counters change
      together, or (when either record is missing) neither does.
     */
    method CommitStats(gameId: string, uid: UserId, su: StatsUpdate)
      modifies this
      ensures if gameId in old(games) && uid in old(users) then
                games == old(games)[gameId := ApplyFlags(old(games)[gameId], su)]
                && users == old(users)[uid := ApplyUserStats(old(users)[uid], su)]
              else games == old(games) && users == old(users)
      ensures old(Valid()) ==> Valid()
    {
      if gameId in games && uid in users {
        FlagsKeepAllConsistent(games, gameId, su);
        games := games[gameId := ApplyFlags(games[gameId], su)];
        users := users[uid := ApplyUserStats(users[uid], su)];
      }
    }
  }

  /**
    One user's view of one match (`enterGame`): the symbol derived from the
    latest snapshot (none before the first) and the module-level
    `isGameActive` flag.
   */
  class GameView {
    var mySymbol: Option<Player>
    var isGameActive: bool

    constructor Enter()
      ensures mySymbol == None && isGameActive
    {
      mySymbol := None;
      isGameActive := true;
    }

    /**
      The snapshot handler: a deleted match ends the session and returns to
      the dashboard home (which clears `isGameActive`); otherwise the stats
      reconciliation is computed and the symbol and activity are derived
      from the snapshot.
     */
    method OnSnapshot(uid: UserId, doc: Option<Match>) returns (e: SnapshotEffect)
      modifies this
      ensures doc.None? ==> e == SessionEnded && !isGameActive && mySymbol == old(mySymbol)
      ensures doc.Some? ==> && e == Observed(HandleGameFinish(uid, doc.value))
                            && isGameActive == IsGameActive(doc.value)
                            && mySymbol == Some(MySymbol(uid, doc.value))
    {
      if doc.None? {
        isGameActive := false;
        return SessionEnded;
      }
      var gameData := doc.value;
      e := Observed(HandleGameFinish(uid, gameData));
      isGameActive := gameData.status == Active || gameData.status == Waiting;
      mySymbol := Some(if uid == gameData.player1Id then X else O);
    }

    /**
      A click on tile `index` of the board rendered from `snapshot`. Before the
      first snapshot the symbol is the empty string, which never equals the
      current player, so nothing is sent.
     */
    function ClickTile(index: nat, snapshot: Match): (u: Option<MoveUpdate>)
      requires index < 9
      reads this
      ensures u.Some? <==> mySymbol.Some? && snapshot.status == Active && snapshot.board[index] == Empty
                           && snapshot.currentPlayer == mySymbol.value
      ensures u.Some? ==> u == TileClick(index, snapshot, mySymbol.value)
    {
      if mySymbol.None? then None else TileClick(index, snapshot, mySymbol.value)
    }
  }
}
