/** The session manager: a map from game id to game, each game owning its
    board. Every method acts on one game exactly as GameRules says and
    leaves the other games alone. */
module Games {
  import opened Options
  import opened UInts
  import opened Pieces
  import opened Positions
  import opened Grids
  import opened Zobrist
  import opened Rules
  import opened Boards
  import opened GameRules

  /** One game: its id, its board, the seated players, the status, the side
      to move and the history of applied moves. The methods are the bodies
      of the Ruler's per-game operations once the game is found. */
  class Game {
    const id: u32
    const board: Board
    var players: seq<Player>
    var status: GameStatus
    var currentTurn: Color
    var moveHistory: seq<MoveRecord>

    /** The objects the game owns: itself and its board's. */
    ghost const Repr: set<object>

    /** The board is consistent, caches no check flag, and the game keeps
        the session invariant. */
    ghost predicate Valid()
      reads Repr
    {
      this in Repr && board.Repr() <= Repr && this !in board.Repr() &&
      board.Valid() && board.NoCachedCheck() && GameOk(board.zobrist, View())
    }

    /** The game as values. */
    function View(): GameView
      requires board.grid.Length == 90
      reads this, board, board.grid
    {
      GameView(board.State(), players, status, currentTurn, moveHistory)
    }

    /** The game create_game files: a new board, nobody seated, Red to
        move, no history. */
    constructor (id: u32, z: ZobristHash)
      requires z.Valid()
      ensures Valid() && fresh(Repr) && this.id == id && board.zobrist == z
      ensures View() == NewGame(z)
    {
      var b := new Board(z);
      this.id := id;
      board := b;
      players := [];
      status := Playing;
      currentTurn := Red;
      moveHistory := [];
      Repr := {this} + b.Repr();
      new;
      NewGameOk(z);
    }

    /** The seating part of add_player_to_game: refused when two players sit
        or the colour is taken, otherwise the player is appended. */
    method AddPlayer(name: string, color: Color) returns (ok: bool)
      requires Valid()
      modifies this
      ensures Valid() && (ok, View()) == Join(old(View()), name, color)
    {
      if |players| >= 2 {
        return false;
      }
      for i := 0 to |players|
        invariant !ColorTaken(players[..i], color)
      {
        if players[i].color == color {
          assert players[..i + 1][i] == players[i];
          return false;
        }
        assert players[..i + 1] == players[..i] + [players[i]];
      }
      assert players[..|players|] == players;
      JoinKeepsSeating(board.zobrist, View(), name, color);
      players := players + [Player(name, color)];
      return true;
    }

    /** The body of make_move once the game is found. The safety test runs
        on the game's own board and restores it. */
    method MakeMove(fromX: u8, fromY: u8, toX: u8, toY: u8) returns (ok: bool)
      requires Valid()
      modifies Repr
      ensures Valid() && (ok, View()) == Move(board.zobrist, old(View()), fromX, fromY, toX, toY)
    {
      ghost var z, before := board.zobrist, View();
      MoveKeepsGameOk(z, before, fromX, fromY, toX, toY);
      if status != Playing {
        return false;
      }
      var from := New(fromX, fromY);
      var to := New(toX, toY);
      var valid := board.IsMoveValid(from, to, currentTurn);
      if !valid {
        return false;
      }
      var safe := board.IsMoveSafe(from, to, currentTurn);
      if !safe {
        return false;
      }
      var capturedPiece := Apply(fromX, fromY, toX, toY);
      Settle(capturedPiece);
      return true;
    }

    /** Applying a safe move to the board and recording it, with the pieces
        and the hash from before; the piece that stood on `to` is returned. */
    method Apply(fromX: u8, fromY: u8, toX: u8, toY: u8) returns (capturedPiece: Piece)
      requires Valid() && New(fromX, fromY).IsValid() && New(toX, toY).IsValid()
      modifies Repr
      ensures capturedPiece == GetPiece(old(board.State()).grid, New(toX, toY))
      ensures board.Valid() && board.NoCachedCheck() && this in Repr && board.Repr() <= Repr && this !in board.Repr()
      ensures board.State() == AfterMove(board.zobrist, old(board.State()), New(fromX, fromY), New(toX, toY))
      ensures moveHistory == old(moveHistory) + [RecordOf(old(View()), fromX, fromY, toX, toY)]
      ensures players == old(players) && status == old(status) && currentTurn == old(currentTurn)
    {
      var from := New(fromX, fromY);
      var to := New(toX, toY);
      var movedPiece := board.GetPiece(from);
      capturedPiece := board.GetPiece(to);
      var hashBefore := board.GetHash();
      board.MakeMove(from, to);
      moveHistory := moveHistory + [MoveRecord(fromX, fromY, toX, toY, movedPiece, capturedPiece, hashBefore)];
    }

    /** The status checks after a move: a captured king, then checkmate or
        stalemate of the opponent; then the turn passes. */
    method Settle(captured: Piece)
      requires board.Valid() && board.NoCachedCheck() && !currentTurn.None? && this !in board.Repr()
      modifies this
      ensures status == StatusAfter(board.zobrist, old(status), board.State(), old(currentTurn), captured)
      ensures currentTurn == Opponent(old(currentTurn))
      ensures players == old(players) && moveHistory == old(moveHistory)
    {
      if captured.pieceType == King {
        status := WinFor(currentTurn);
      }
      var opponent := Opponent(currentTurn);
      var mate := board.IsCheckmate(opponent);
      if mate {
        status := WinFor(currentTurn);
      } else {
        var stale := board.IsStalemate(opponent);
        if stale {
          status := Stalemate;
        }
      }
      currentTurn := opponent;
    }

    /** The body of undo_move once the game is found. */
    method UndoMove() returns (ok: bool)
      requires Valid()
      modifies Repr
      ensures Valid() && (ok, View()) == Undo(board.zobrist, old(View()))
    {
      ghost var z, before := board.zobrist, View();
      UndoKeepsGameOk(z, before);
      if |moveHistory| == 0 {
        return false;
      }
      var last := moveHistory[|moveHistory| - 1];
      moveHistory := moveHistory[..|moveHistory| - 1];
      var from := New(last.fromX, last.fromY);
      var to := New(last.toX, last.toY);
      board.SetPiece(from, last.movedPiece);
      board.SetPiece(to, last.capturedPiece);
      currentTurn := Opponent(currentTurn);
      if status != Playing {
        status := Playing;
      }
      return true;
    }
  }

  /** A game none of whose objects changed is still valid and has the
      same view. */
  twostate lemma UnchangedView(g: Game)
    requires old(g.Valid()) && unchanged(g.Repr)
    ensures g.Valid() && g.View() == old(g.View())
  {
  }

  /** The ownership structure of the ruler: every game is filed under its
      own id below the next id, its objects are in the footprint and not the
      ruler, and no two games share an object. */
  ghost predicate Owned(games: map<u32, Game>, repr: set<object>, next: nat, ruler: object)
  {
    (forall id | id in games :: games[id].Repr <= repr && ruler !in games[id].Repr &&
      games[id].id == id && id < next) &&
    (forall a, b | a in games && b in games && a != b :: games[a].Repr !! games[b].Repr)
  }

  /** Filing a game with fresh objects under the next id keeps the structure. */
  lemma OwnedAdd(games: map<u32, Game>, repr: set<object>, next: u32, ruler: object, g: Game)
    requires Owned(games, repr, next, ruler) && g.id == next && next < U32_MAX
    requires g.Repr !! repr && ruler !in g.Repr
    ensures next !in games
    ensures Owned(games[next := g], repr + g.Repr, next + 1, ruler)
  {
    var games' := games[next := g];
    forall a, b | a in games' && b in games' && a != b ensures games'[a].Repr !! games'[b].Repr {
      if a != next && b != next {
        assert games'[a] == games[a] && games'[b] == games[b];
      }
    }
  }

  class Ruler {
    var games: map<u32, Game>
    var nextGameId: u32
    ghost var Repr: set<object>

    /** Each game is valid, filed under its own id, below the next id, and
        owns objects no other game and not the ruler owns. */
    ghost predicate Valid()
      reads this, Repr
    {
      Owned(games, Repr, nextGameId, this) &&
      forall id {:trigger games[id].Valid()} | id in games :: games[id].Valid()
    }

    /** Ruler::new: no games, ids from 1. */
    constructor ()
      ensures Valid() && games == map[] && nextGameId == 1
    {
      games := map[];
      nextGameId := 1;
      Repr := {};
    }

    /** Ruler::create_game: file a new game under the next id and advance it.
        The board's random hash table is the parameter z. The counter is a
        u32 whose increment panics on overflow, hence the bound. */
    method CreateGame(z: ZobristHash) returns (id: u32)
      requires Valid() && z.Valid() && nextGameId < U32_MAX
      modifies this
      ensures Valid() && id == old(nextGameId) && nextGameId == old(nextGameId) + 1
      ensures id !in old(games) && id in games && games == old(games)[id := games[id]]
      ensures fresh(games[id].Repr) && games[id].Valid() && games[id].View() == NewGame(z) && games[id].board.zobrist == z
      ensures forall j | j in old(games) :: unchanged(games[j].Repr)
    {
      id := nextGameId;
      var game := new Game(id, z);
      File(game);
    }

    /** Files a valid game, whose objects are not the ruler's, under the next id. */
    method File(game: Game)
      requires Valid() && game.Valid() && game.id == nextGameId && nextGameId < U32_MAX
      requires game.Repr !! Repr && this !in game.Repr
      modifies this
      ensures Valid() && nextGameId == old(nextGameId) + 1
      ensures game.id !in old(games) && games == old(games)[game.id := game]
    {
      OwnedAdd(games, Repr, nextGameId, this, game);
      games, nextGameId, Repr := games[game.id := game], nextGameId + 1, Repr + game.Repr;
    }

    /** Ruler::get_game. */
    function GetGame(id: u32): (r: Option<Game>)
      reads this
      ensures r.Some? <==> id in games
      ensures r.Some? ==> r.value == games[id]
    {
      if id in games then Some(games[id]) else Option.None
    }

    /** Ruler::add_player_to_game: refused for a missing game; otherwise as Join. */
    method AddPlayerToGame(id: u32, name: string, color: Color) returns (ok: bool)
      requires Valid()
      modifies if id in games then {games[id]} else {}
      ensures Valid()
      ensures games == old(games) && nextGameId == old(nextGameId)
      ensures forall j | j in old(games) && j != id :: unchanged(games[j].Repr)
      ensures id !in games ==> !ok
      ensures id in games ==>
        old(games[id].Valid()) && games[id].Valid() &&
        (ok, games[id].View()) == Join(old(games[id].View()), name, color)
    {
      if id !in games {
        return false;
      }
      var g := games[id];
      forall j | j in games && j != id
        ensures g.Repr !! games[j].Repr
      {
        assert games[j].Valid();
      }
      ok := g.AddPlayer(name, color);
    }

    /** Ruler::make_move: refused for a missing game; otherwise as Move. */
    method MakeMove(id: u32, fromX: u8, fromY: u8, toX: u8, toY: u8) returns (ok: bool)
      requires Valid()
      modifies if id in games then games[id].Repr else {}
      ensures Valid()
      ensures games == old(games) && nextGameId == old(nextGameId)
      ensures forall j | j in old(games) && j != id :: unchanged(games[j].Repr)
      ensures id !in games ==> !ok
      ensures id in games ==>
        old(games[id].Valid()) && games[id].Valid() &&
        (ok, games[id].View()) == Move(games[id].board.zobrist, old(games[id].View()), fromX, fromY, toX, toY)
    {
      if id !in games {
        return false;
      }
      var g := games[id];
      forall j | j in games && j != id
        ensures g.Repr !! games[j].Repr
      {
        assert games[j].Valid();
      }
      ok := g.MakeMove(fromX, fromY, toX, toY);
    }

    /** Ruler::remove_game: true exactly when the id was present; afterwards it is absent. */
    method RemoveGame(id: u32) returns (ok: bool)
      requires Valid()
      modifies this
      ensures Valid() && ok == (id in old(games)) && games == old(games) - {id}
      ensures nextGameId == old(nextGameId)
    {
      ok := id in games;
      games := games - {id};
    }

    /** Ruler::undo_move: refused for a missing game; otherwise as Undo. */
    method UndoMove(id: u32) returns (ok: bool)
      requires Valid()
      modifies if id in games then games[id].Repr else {}
      ensures Valid()
      ensures games == old(games) && nextGameId == old(nextGameId)
      ensures forall j | j in old(games) && j != id :: unchanged(games[j].Repr)
      ensures id !in games ==> !ok
      ensures id in games ==>
        old(games[id].Valid()) && games[id].Valid() &&
        (ok, games[id].View()) == Undo(games[id].board.zobrist, old(games[id].View()))
    {
      if id !in games {
        return false;
      }
      var g := games[id];
      forall j | j in games && j != id
        ensures g.Repr !! games[j].Repr
      {
        assert games[j].Valid();
      }
      ok := g.UndoMove();
    }
  }
}
