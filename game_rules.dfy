/** The session rules of one game as functions of its values: seating, the
    effect of a move with its end-of-game status, and undo. The Ruler's
    methods are proved to act on each game exactly as these say. */
module GameRules {
  import opened Options
  import opened UInts
  import opened Pieces
  import opened Positions
  import opened Grids
  import opened Zobrist
  import opened Rules
  import opened RuleFacts
  import opened MoveFacts

  datatype GameStatus = Playing | RedWon | BlackWon | Stalemate

  datatype Player = Player(name: string, color: Color)

  /** One applied move: the raw coordinates as given, the pieces on both
      squares before the move, and the hash before it. */
  datatype MoveRecord = MoveRecord(fromX: u8, fromY: u8, toX: u8, toY: u8,
                                   movedPiece: Piece, capturedPiece: Piece, hashBefore: Word)

  /** Everything about a game the session rules read or write. */
  datatype GameView = GameView(board: BoardState, players: seq<Player>, status: GameStatus,
                               turn: Color, history: seq<MoveRecord>)

  /** The status that declares colour c the winner; the empty colour declares nobody. */
  function WinFor(c: Color): (s: GameStatus)
    ensures s.Playing? <==> c.None?
    ensures c.Red? ==> s.RedWon?
    ensures c.Black? ==> s.BlackWon?
  {
    match c
    case Red => RedWon
    case Black => BlackWon
    case None => Playing
  }

  /** At most two players, no colour seated twice. */
  predicate Seated(players: seq<Player>)
  {
    |players| <= 2 &&
    forall i, j | 0 <= i < j < |players| :: players[i].color != players[j].color
  }

  /** What every game keeps: its seating, a side to move, and a hash that is
      the full hash of its grid. */
  predicate GameOk(z: ZobristHash, v: GameView)
    requires z.Valid()
  {
    Seated(v.players) && !v.turn.None? && v.board.hash == Hash(z, v.board.grid)
  }

  /** A fresh game: the opening position with both kings found and its hash,
      nobody seated, Red to move, no history. */
  function NewGame(z: ZobristHash): GameView
    requires z.Valid()
  {
    GameView(BoardState(InitialGrid(), Some(New(4, 0)), Some(New(4, 9)), Hash(z, InitialGrid())),
             [], Playing, Red, [])
  }

  lemma NewGameOk(z: ZobristHash)
    requires z.Valid()
    ensures GameOk(z, NewGame(z))
    ensures KingsCached(NewGame(z).board)
  {
    InitialKings();
  }

  /** Some seated player already has colour c. */
  predicate ColorTaken(players: seq<Player>, c: Color)
  {
    exists i | 0 <= i < |players| :: players[i].color == c
  }

  /** add_player_to_game on one game: refused when two players sit or the
      colour is taken, otherwise the player is appended. */
  function Join(v: GameView, name: string, c: Color): (bool, GameView)
  {
    if |v.players| >= 2 || ColorTaken(v.players, c) then (false, v)
    else (true, v.(players := v.players + [Player(name, c)]))
  }

  /** Joining keeps the seating rule, appends exactly the new player when it
      succeeds, and touches nothing else either way. */
  lemma JoinKeepsSeating(z: ZobristHash, v: GameView, name: string, c: Color)
    requires z.Valid() && GameOk(z, v)
    ensures GameOk(z, Join(v, name, c).1)
    ensures Join(v, name, c).0 <==> |v.players| < 2 && forall p | p in v.players :: p.color != c
    ensures Join(v, name, c).0 ==> Join(v, name, c).1 == v.(players := v.players + [Player(name, c)])
    ensures !Join(v, name, c).0 ==> Join(v, name, c).1 == v
  {
    var (ok, w) := Join(v, name, c);
    if ok {
      var ps := w.players;
      forall i, j | 0 <= i < j < |ps| ensures ps[i].color != ps[j].color {
        if j == |v.players| {
          assert ps[i] == v.players[i];
        }
      }
    }
    if !ColorTaken(v.players, c) {
      forall p | p in v.players ensures p.color != c {
        var i :| 0 <= i < |v.players| && v.players[i] == p;
      }
    }
  }

  /** The record make_move pushes. */
  function RecordOf(v: GameView, fromX: u8, fromY: u8, toX: u8, toY: u8): MoveRecord
  {
    MoveRecord(fromX, fromY, toX, toY, GetPiece(v.board.grid, New(fromX, fromY)),
               GetPiece(v.board.grid, New(toX, toY)), v.board.hash)
  }

  /** The status after a move by c: a captured king declares c the winner,
      then checkmate of the opponent declares c the winner and stalemate of
      the opponent declares a stalemate, overriding the capture. */
  function StatusAfter(z: ZobristHash, before: GameStatus, s: BoardState, c: Color, captured: Piece): GameStatus
    requires z.Valid() && !c.None?
  {
    var afterCapture := if captured.pieceType.King? then WinFor(c) else before;
    if IsCheckmate(z, s, Opponent(c)) then WinFor(c)
    else if IsStalemate(z, s, Opponent(c)) then Stalemate
    else afterCapture
  }

  /** make_move on one game. A finished game, an invalid move and a move
      that leaves the mover in check are refused and change nothing.
      Otherwise the move is applied and recorded, the status updated and
      the turn passed to the opponent. (With no side to move the source
      gives up after recording the move, before the status checks.) */
  function Move(z: ZobristHash, v: GameView, fromX: u8, fromY: u8, toX: u8, toY: u8): (bool, GameView)
    requires z.Valid()
  {
    var from, to := New(fromX, fromY), New(toX, toY);
    if !v.status.Playing? || !MoveSafe(z, v.board, from, to, v.turn) then (false, v)
    else
      var captured := GetPiece(v.board.grid, to);
      var s := AfterMove(z, v.board, from, to);
      var history := v.history + [RecordOf(v, fromX, fromY, toX, toY)];
      if v.turn.None? then
        (false, GameView(s, v.players, if captured.pieceType.King? then WinFor(v.turn) else v.status, v.turn, history))
      else
        (true, GameView(s, v.players, StatusAfter(z, v.status, s, v.turn, captured), Opponent(v.turn), history))
  }

  /** An accepted move is exactly a safe move in a game still being played;
      a refused one changes nothing. */
  lemma MoveAccepted(z: ZobristHash, v: GameView, fromX: u8, fromY: u8, toX: u8, toY: u8)
    requires z.Valid() && GameOk(z, v)
    ensures var from, to := New(fromX, fromY), New(toX, toY);
      Move(z, v, fromX, fromY, toX, toY).0 <==> v.status.Playing? && MoveSafe(z, v.board, from, to, v.turn)
    ensures !Move(z, v, fromX, fromY, toX, toY).0 ==> Move(z, v, fromX, fromY, toX, toY).1 == v
  {
  }

  /** An accepted move empties `from`, puts the mover on `to` and leaves
      every other square alone; it pushes one record holding the pieces
      and the hash from before the move; it passes the turn and keeps the
      players. */
  lemma MoveEffect(z: ZobristHash, v: GameView, fromX: u8, fromY: u8, toX: u8, toY: u8)
    requires z.Valid() && GameOk(z, v) && Move(z, v, fromX, fromY, toX, toY).0
    ensures var from, to, w := New(fromX, fromY), New(toX, toY), Move(z, v, fromX, fromY, toX, toY).1;
      from != to && from.IsValid() && to.IsValid() &&
      GetPiece(w.board.grid, from) == Default() &&
      GetPiece(w.board.grid, to) == GetPiece(v.board.grid, from) &&
      forall q: Position | q.IsValid() && q != from && q != to :: GetPiece(w.board.grid, q) == GetPiece(v.board.grid, q)
    ensures var w := Move(z, v, fromX, fromY, toX, toY).1;
      w.history == v.history + [RecordOf(v, fromX, fromY, toX, toY)] &&
      w.turn == Opponent(v.turn) && w.players == v.players
  {
    var from, to := New(fromX, fromY), New(toX, toY);
    MoveGuards(v.board.grid, from, to, v.turn);
    AfterMoveGrid(z, v.board, from, to);
  }

  /** The status after an accepted move: the mover never loses by moving;
      checkmating the opponent wins, stalemating it draws, and taking the
      opponent's king wins unless the opponent is then stalemated. A draw
      is declared only on a stalemate, and play goes on exactly when no
      king was taken and the opponent is neither mated nor stalemated. */
  lemma MoveStatus(z: ZobristHash, v: GameView, fromX: u8, fromY: u8, toX: u8, toY: u8)
    requires z.Valid() && GameOk(z, v) && Move(z, v, fromX, fromY, toX, toY).0
    ensures var w := Move(z, v, fromX, fromY, toX, toY).1;
      w.status == WinFor(v.turn) || w.status.Stalemate? || w.status.Playing?
    ensures var w := Move(z, v, fromX, fromY, toX, toY).1;
      IsCheckmate(z, w.board, w.turn) ==> w.status == WinFor(v.turn)
    ensures var w := Move(z, v, fromX, fromY, toX, toY).1;
      IsStalemate(z, w.board, w.turn) ==> w.status.Stalemate?
    ensures var w := Move(z, v, fromX, fromY, toX, toY).1;
      GetPiece(v.board.grid, New(toX, toY)).pieceType.King? ==> !w.status.Playing?
    ensures var w := Move(z, v, fromX, fromY, toX, toY).1;
      GetPiece(v.board.grid, New(toX, toY)).pieceType.King? && !IsStalemate(z, w.board, w.turn) ==>
        w.status == WinFor(v.turn)
    ensures var w := Move(z, v, fromX, fromY, toX, toY).1;
      w.status.Stalemate? ==> IsStalemate(z, w.board, w.turn)
    ensures var w := Move(z, v, fromX, fromY, toX, toY).1;
      w.status.Playing? <==>
        !GetPiece(v.board.grid, New(toX, toY)).pieceType.King? &&
        !IsCheckmate(z, w.board, w.turn) && !IsStalemate(z, w.board, w.turn)
  {
    var w := Move(z, v, fromX, fromY, toX, toY).1;
    EndConditionsExclusive(z, w.board, w.turn);
  }

  /** An accepted move keeps the game's invariant: seating is untouched and
      the incrementally updated hash is still the full hash of the grid. */
  lemma MoveKeepsGameOk(z: ZobristHash, v: GameView, fromX: u8, fromY: u8, toX: u8, toY: u8)
    requires z.Valid() && GameOk(z, v)
    ensures GameOk(z, Move(z, v, fromX, fromY, toX, toY).1)
  {
    var from, to := New(fromX, fromY), New(toX, toY);
    if Move(z, v, fromX, fromY, toX, toY).0 {
      MoveGuards(v.board.grid, from, to, v.turn);
      AfterMoveKeepsHash(z, v.board, from, to);
    }
  }

  /** undo_move on one game: with no history it is refused. Otherwise the
      last record is popped, its mover is set back on `from` and its
      captured piece on `to`, the turn passes back and play resumes. (With
      no side to move the source gives up after restoring the squares.) */
  function Undo(z: ZobristHash, v: GameView): (bool, GameView)
    requires z.Valid()
  {
    if |v.history| == 0 then (false, v)
    else
      var last := v.history[|v.history| - 1];
      var history := v.history[..|v.history| - 1];
      var from, to := New(last.fromX, last.fromY), New(last.toX, last.toY);
      var s := AfterSet(z, AfterSet(z, v.board, from, last.movedPiece), to, last.capturedPiece);
      if v.turn.None? then (false, GameView(s, v.players, v.status, v.turn, history))
      else (true, GameView(s, v.players, Playing, Opponent(v.turn), history))
  }

  /** Undo keeps the game's invariant: the hash is recomputed from scratch
      on every square it writes. */
  lemma UndoKeepsGameOk(z: ZobristHash, v: GameView)
    requires z.Valid() && GameOk(z, v)
    ensures GameOk(z, Undo(z, v).1)
    ensures Undo(z, v).0 <==> |v.history| > 0
  {
  }

  /** Undo takes back an accepted move: the grid, the hash, the history,
      the players and the turn are those from before the move, and the game
      is being played again. The cached king squares are not restored in
      general: the first write may rescan while the king is still on `to`. */
  lemma UndoAfterMove(z: ZobristHash, v: GameView, fromX: u8, fromY: u8, toX: u8, toY: u8)
    requires z.Valid() && GameOk(z, v) && Move(z, v, fromX, fromY, toX, toY).0
    ensures var w := Undo(z, Move(z, v, fromX, fromY, toX, toY).1);
      w.0 && w.1.board.grid == v.board.grid && w.1.board.hash == v.board.hash &&
      w.1.history == v.history && w.1.players == v.players && w.1.turn == v.turn &&
      w.1.status == v.status
  {
    var from, to := New(fromX, fromY), New(toX, toY);
    var moved := Move(z, v, fromX, fromY, toX, toY).1;
    MoveGuards(v.board.grid, from, to, v.turn);
    AfterMoveRestore(z, v.board, from, to);
    var rec := RecordOf(v, fromX, fromY, toX, toY);
    assert moved.history[|moved.history| - 1] == rec;
    assert moved.history[..|moved.history| - 1] == v.history;
  }
}
