/** The engine front door: a command string is parsed into an AST node, the
    node is carried out on the session manager, and the outcome is an
    EngineResult, which is written out as one line of text. */
module Engines {
  import opened Options
  import opened UInts
  import opened Text
  import Zobrist
  import GR = GameRules
  import opened Games
  import opened Lexers
  import opened Parsers
  import Commands
  import Pieces

  datatype EngineResult =
    | GameCreated(gameId: u32)
    | MoveSuccess(gameId: u32)
    | JoinSuccess(gameId: u32)
    | UndoSuccess(gameId: u32)
    | GameStatus(gameId: u32, status: GR.GameStatus)
    | GameNotFound(gameId: u32)
    | MoveFailed(gameId: u32)
    | JoinFailed(gameId: u32)
    | UndoFailed(gameId: u32)
    | InvalidCommand

  /** The `Debug` name of a game status. */
  function StatusName(s: GR.GameStatus): string
  {
    match s
    case Playing => "Playing"
    case RedWon => "RedWon"
    case BlackWon => "BlackWon"
    case Stalemate => "Stalemate"
  }

  /** The fixed tag each result starts with. */
  function Tag(r: EngineResult): string
  {
    match r
    case GameCreated(_) => "GAME_CREATED"
    case MoveSuccess(_) => "MOVE_SUCCESS"
    case JoinSuccess(_) => "JOIN_SUCCESS"
    case UndoSuccess(_) => "UNDO_SUCCESS"
    case GameStatus(_, _) => "GAME_STATUS"
    case GameNotFound(_) => "GAME_NOT_FOUND"
    case MoveFailed(_) => "MOVE_FAILED"
    case JoinFailed(_) => "JOIN_FAILED"
    case UndoFailed(_) => "UNDO_FAILED"
    case InvalidCommand => "INVALID_COMMAND"
  }

  /** `Display` for EngineResult: the tag, then the game id in decimal, then
      for a status result the status name, one space apart. */
  function Render(r: EngineResult): string
  {
    if r.InvalidCommand? then Tag(r)
    else if r.GameStatus? then Tag(r) + " " + Decimal(r.gameId) + " " + StatusName(r.status)
    else Tag(r) + " " + Decimal(r.gameId)
  }

  /** The words of a rendered result. */
  function Fields(r: EngineResult): (ws: seq<string>)
    ensures |ws| >= 1 && ws[0] == Tag(r)
  {
    if r.InvalidCommand? then [Tag(r)]
    else if r.GameStatus? then [Tag(r), Decimal(r.gameId), StatusName(r.status)]
    else [Tag(r), Decimal(r.gameId)]
  }

  /** The result a tag and a game id stand for, for the tags that carry only
      an id. */
  function IdResult(tag: string, id: u32): Option<EngineResult>
  {
    if tag == "GAME_CREATED" then Some(GameCreated(id))
    else if tag == "MOVE_SUCCESS" then Some(MoveSuccess(id))
    else if tag == "JOIN_SUCCESS" then Some(JoinSuccess(id))
    else if tag == "UNDO_SUCCESS" then Some(UndoSuccess(id))
    else if tag == "GAME_NOT_FOUND" then Some(GameNotFound(id))
    else if tag == "MOVE_FAILED" then Some(MoveFailed(id))
    else if tag == "JOIN_FAILED" then Some(JoinFailed(id))
    else if tag == "UNDO_FAILED" then Some(UndoFailed(id))
    else None
  }

  function StatusOfName(w: string): Option<GR.GameStatus>
  {
    if w == "Playing" then Some(GR.Playing)
    else if w == "RedWon" then Some(GR.RedWon)
    else if w == "BlackWon" then Some(GR.BlackWon)
    else if w == "Stalemate" then Some(GR.Stalemate)
    else None
  }

  /** Reads a rendered result back from its words. */
  function Decode(text: string): Option<EngineResult>
  {
    var ws := Words(text);
    if ws == ["INVALID_COMMAND"] then Some(InvalidCommand)
    else if |ws| == 2 then
      match Commands.ParseU32(ws[1])
      case Some(id) => IdResult(ws[0], id)
      case None => None
    else if |ws| == 3 && ws[0] == "GAME_STATUS" then
      match (Commands.ParseU32(ws[1]), StatusOfName(ws[2]))
      case (Some(id), Some(s)) => Some(GameStatus(id, s))
      case _ => None
    else None
  }

  /** A rendered result is its fields one space apart. */
  lemma RenderFields(r: EngineResult)
    ensures Render(r) == Unwords(Fields(r))
  {
    if r.GameStatus? {
      UnwordsThree(Tag(r), Decimal(r.gameId), StatusName(r.status));
    } else if !r.InvalidCommand? {
      UnwordsTwo(Tag(r), Decimal(r.gameId));
    }
  }

  lemma UnwordsTwo(a: string, b: string)
    ensures Unwords([a, b]) == a + " " + b
  {
    assert [a, b][1..] == [b];
  }

  lemma UnwordsThree(a: string, b: string, c: string)
    ensures Unwords([a, b, c]) == a + " " + b + " " + c
  {
    assert [a, b, c][1..] == [b, c];
    UnwordsTwo(b, c);
  }

  /** Every field of a result is a word. */
  lemma FieldsAreWords(r: EngineResult)
    ensures forall i | 0 <= i < |Fields(r)| :: Word(Fields(r)[i])
  {
    TagIsWord(r);
    if !r.InvalidCommand? {
      var d := Decimal(r.gameId);
      assert Word(d) by {
        assert forall i | 0 <= i < |d| :: IsDigit(d[i]);
      }
      if r.GameStatus? {
        StatusIsWord(r.status);
      }
    }
  }

  lemma TagIsWord(r: EngineResult)
    ensures Word(Tag(r))
  {
    SuccessTagsAreWords();
    FailureTagsAreWords();
    assert Word("GAME_STATUS") && Word("INVALID_COMMAND");
  }

  lemma SuccessTagsAreWords()
    ensures Word("GAME_CREATED") && Word("MOVE_SUCCESS") && Word("JOIN_SUCCESS") && Word("UNDO_SUCCESS")
  {
  }

  lemma FailureTagsAreWords()
    ensures Word("GAME_NOT_FOUND") && Word("MOVE_FAILED") && Word("JOIN_FAILED") && Word("UNDO_FAILED")
  {
  }

  lemma StatusIsWord(s: GR.GameStatus)
    ensures Word(StatusName(s))
  {
  }

  /** The fields of a result are read back as that result. */
  lemma DecodeFields(r: EngineResult)
    ensures var ws := Fields(r);
      (r.InvalidCommand? ==> ws == ["INVALID_COMMAND"]) &&
      (!r.InvalidCommand? ==> ws != ["INVALID_COMMAND"] && Commands.ParseU32(ws[1]) == Some(r.gameId)) &&
      (!r.InvalidCommand? && !r.GameStatus? ==> |ws| == 2 && IdResult(ws[0], r.gameId) == Some(r)) &&
      (r.GameStatus? ==> |ws| == 3 && ws[0] == "GAME_STATUS" && StatusOfName(ws[2]) == Some(r.status))
  {
    if !r.InvalidCommand? {
      Commands.ParseDecimal(r.gameId);
    }
  }

  /** Decoding the text of a result gives the result back. */
  lemma DecodeRender(r: EngineResult)
    ensures Decode(Render(r)) == Some(r)
  {
    RenderFields(r);
    FieldsAreWords(r);
    WordsOfUnwords(Fields(r));
    DecodeFields(r);
  }

  /** Different results are written differently. */
  lemma RenderInjective(a: EngineResult, b: EngineResult)
    ensures Render(a) == Render(b) ==> a == b
  {
    DecodeRender(a);
    DecodeRender(b);
  }

  /** Every game filed before, other than id, is still filed as the same
      object with none of its objects changed. */
  twostate predicate Kept(gm: Ruler, id: u32)
    requires old(gm.Valid()) && gm.Valid()
    reads gm, gm.Repr
  {
    forall j | j in old(gm.games) && j != id ::
      j in gm.games && gm.games[j] == old(gm.games[j]) && unchanged(gm.games[j].Repr)
  }

  /** The games Kept keeps are still valid and have their old views. */
  twostate lemma KeptViews(gm: Ruler, id: u32)
    requires old(gm.Valid()) && gm.Valid() && Kept(gm, id)
    ensures forall j | j in old(gm.games) && j != id ::
      gm.games[j].Valid() && gm.games[j].View() == old(gm.games[j].View())
  {
    forall j | j in old(gm.games) && j != id
      ensures gm.games[j].Valid() && gm.games[j].View() == old(gm.games[j].View())
    {
      UnchangedView(gm.games[j]);
    }
  }

  /** What execute_ast did on the session manager gm for the node, with the
      hash table z for a new game, when it answered r. A join, a move and
      an undo on a filed game do what the game rules say and are answered
      with success exactly when the rules accept; the colour of a move is
      not used; on a missing game they change nothing and fail. Every
      command keeps the games already filed, other than the one it names,
      exactly as they were (Kept, and so their views, by KeptViews), and
      only CreateGame adds a game or advances the next id. A status query
      and an invalid command change nothing. */
  twostate predicate Executed(gm: Ruler, node: ASTNode, z: Zobrist.ZobristHash, r: EngineResult)
    reads gm, gm.Repr
  {
    old(gm.Valid()) && gm.Valid() &&
    match node
    case CreateGame =>
      var id := old(gm.nextGameId);
      r == GameCreated(id) && id !in old(gm.games) && id in gm.games &&
      gm.games == old(gm.games)[id := gm.games[id]] && gm.nextGameId == id + 1 &&
      fresh(gm.games[id].Repr) && gm.games[id].Valid() && z.Valid() && gm.games[id].View() == GR.NewGame(z) &&
      Kept(gm, id)
    case JoinGame(id, name, c) =>
      gm.games == old(gm.games) && gm.nextGameId == old(gm.nextGameId) && Kept(gm, id) &&
      if id in old(gm.games) then
        id in gm.games && old(gm.games[id].Valid()) && gm.games[id].Valid() &&
        var (ok, v) := GR.Join(old(gm.games[id].View()), name, c);
        gm.games[id].View() == v && r == (if ok then JoinSuccess(id) else JoinFailed(id))
      else r == JoinFailed(id)
    case Move(id, _, fx, fy, tx, ty) =>
      gm.games == old(gm.games) && gm.nextGameId == old(gm.nextGameId) && Kept(gm, id) &&
      if id in old(gm.games) then
        id in gm.games && old(gm.games[id].Valid()) && gm.games[id].Valid() &&
        var (ok, v) := GR.Move(gm.games[id].board.zobrist, old(gm.games[id].View()), fx, fy, tx, ty);
        gm.games[id].View() == v && r == (if ok then MoveSuccess(id) else MoveFailed(id))
      else r == MoveFailed(id)
    case Undo(id) =>
      gm.games == old(gm.games) && gm.nextGameId == old(gm.nextGameId) && Kept(gm, id) &&
      if id in old(gm.games) then
        id in gm.games && old(gm.games[id].Valid()) && gm.games[id].Valid() &&
        var (ok, v) := GR.Undo(gm.games[id].board.zobrist, old(gm.games[id].View()));
        gm.games[id].View() == v && r == (if ok then UndoSuccess(id) else UndoFailed(id))
      else r == UndoFailed(id)
    case GetGame(id) =>
      unchanged(gm) && unchanged(gm.Repr) && (id in gm.games ==> gm.games[id].Valid()) &&
      r == (if id in gm.games then GameStatus(id, gm.games[id].status) else GameNotFound(id))
    case Invalid =>
      unchanged(gm) && unchanged(gm.Repr) && r == InvalidCommand
  }

  class Engine {
    const gameManager: Ruler

    ghost predicate Valid()
      reads this, gameManager, gameManager.Repr
    {
      gameManager.Valid()
    }

    /** Engine::new: a session manager without games. */
    constructor ()
      ensures Valid() && fresh(gameManager) && gameManager.games == map[] && gameManager.nextGameId == 1
    {
      gameManager := new Ruler();
    }

    /** Engine::execute_ast: one Ruler call per node. A new game needs the
        hash table z, and the next id must still be below the u32 limit. */
    method ExecuteAst(node: ASTNode, z: Zobrist.ZobristHash) returns (r: EngineResult)
      requires Valid() && (node.CreateGame? ==> z.Valid() && gameManager.nextGameId < U32_MAX)
      modifies gameManager, gameManager.Repr
      ensures Valid() && Executed(gameManager, node, z, r)
    {
      match node
      case CreateGame =>
        r := ExecuteCreate(z);
      case JoinGame(id, name, c) =>
        r := ExecuteJoin(id, name, c, z);
      case Move(id, c, fx, fy, tx, ty) =>
        r := ExecuteMove(id, c, fx, fy, tx, ty, z);
      case Undo(id) =>
        r := ExecuteUndo(id, z);
      case GetGame(id) =>
        var g := gameManager.GetGame(id);
        r := if g.Some? then GameStatus(id, g.value.status) else GameNotFound(id);
      case Invalid =>
        r := InvalidCommand;
    }

    /** The CreateGame arm of execute_ast. */
    method ExecuteCreate(z: Zobrist.ZobristHash) returns (r: EngineResult)
      requires Valid() && z.Valid() && gameManager.nextGameId < U32_MAX
      modifies gameManager, gameManager.Repr
      ensures Valid() && Executed(gameManager, CreateGame, z, r)
    {
      var id := gameManager.CreateGame(z);
      r := GameCreated(id);
    }

    /** The JoinGame arm of execute_ast. */
    method ExecuteJoin(id: u32, name: string, c: Pieces.Color, ghost z: Zobrist.ZobristHash) returns (r: EngineResult)
      requires Valid()
      modifies gameManager, gameManager.Repr
      ensures Valid() && Executed(gameManager, JoinGame(id, name, c), z, r)
    {
      if id in gameManager.games {
        assert gameManager.games[id].Valid();
      }
      var ok := gameManager.AddPlayerToGame(id, name, c);
      r := if ok then JoinSuccess(id) else JoinFailed(id);
    }

    /** The Move arm of execute_ast; the colour of the command is not used. */
    method ExecuteMove(id: u32, c: Pieces.Color, fx: u8, fy: u8, tx: u8, ty: u8, ghost z: Zobrist.ZobristHash) returns (r: EngineResult)
      requires Valid()
      modifies gameManager, gameManager.Repr
      ensures Valid() && Executed(gameManager, ASTNode.Move(id, c, fx, fy, tx, ty), z, r)
    {
      var ok := gameManager.MakeMove(id, fx, fy, tx, ty);
      r := if ok then MoveSuccess(id) else MoveFailed(id);
    }

    /** The Undo arm of execute_ast. */
    method ExecuteUndo(id: u32, ghost z: Zobrist.ZobristHash) returns (r: EngineResult)
      requires Valid()
      modifies gameManager, gameManager.Repr
      ensures Valid() && Executed(gameManager, ASTNode.Undo(id), z, r)
    {
      var ok := gameManager.UndoMove(id);
      r := if ok then UndoSuccess(id) else UndoFailed(id);
    }

    /** Engine::parse: a parser over the command and its parse; the
        engine is left as it is. The command must lex without a number
        overflowing up to the tokens parse reads. */
    method Parse(command: string) returns (node: ASTNode)
      requires Parsable(command)
      ensures node == Parsers.Parse(command)
    {
      ghost var ts := StreamOf(Trim(command));
      assert At(ts, 0).Step? && At(ts, 1).Step? by {
        assert ParseAt(ts, 0).used + 2 >= 2;
      }
      var parser := new Parser(command);
      node := parser.Parse();
    }

    /** Engine::execute: parse the command, then execute the node, so the
        outcome is that of execute_ast on the parsed node. */
    method Execute(command: string, z: Zobrist.ZobristHash) returns (r: EngineResult)
      requires Valid() && Parsable(command)
      requires Parsers.Parse(command).CreateGame? ==> z.Valid() && gameManager.nextGameId < U32_MAX
      modifies gameManager, gameManager.Repr
      ensures Valid() && Executed(gameManager, Parsers.Parse(command), z, r)
    {
      var node := Parse(command);
      r := ExecuteAst(node, z);
    }
  }
}
