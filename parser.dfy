/** The recursive-descent command parser. It keeps the current and the next
    token of the lexer and consumes tokens one at a time; every command is a
    fixed sequence of tokens, and any mismatch makes the command Invalid.
    The functions below state the grammar over the lexer's token stream;
    the methods of class Parser are proved to follow them. */
module Parsers {
  import opened UInts
  import opened Pieces
  import opened Text
  import opened Lexers

  /** The closed set of commands. */
  datatype ASTNode =
    | CreateGame
    | JoinGame(gameId: u32, name: string, color: Color)
    | Move(gameId: u32, color: Color, fromX: u8, fromY: u8, toX: u8, toY: u8)
    | Undo(gameId: u32)
    | GetGame(gameId: u32)
    | Invalid

  /** Where the parser ends up: the command (Invalid on a mismatch) and the
      number of tokens consumed from the start of the stream. */
  datatype Parsed = Parsed(node: ASTNode, used: nat)

  predicate IsColor(t: Token)
  {
    t.Red? || t.Black?
  }

  function ColorOf(t: Token): Color
    requires IsColor(t)
  {
    if t.Red? then Color.Red else Color.Black
  }

  /** The stream of a lexer over s. */
  ghost function StreamOf(s: string): Stream
  {
    imap k: nat | true :: StepAt(s, k)
  }

  /** The token of call i, with Eof standing in for an overflow. */
  function Tok(ts: Stream, i: nat): Token
  {
    match At(ts, i)
    case Step(t, _) => t
    case Overflow => Eof
  }

  /** The first n calls of next_token do not overflow. */
  predicate Fits(ts: Stream, n: nat)
  {
    forall k | 0 <= k < n :: At(ts, k).Step?
  }

  /** CREATE GAME, starting at token i. */
  function CreateGameAt(ts: Stream, i: nat): Parsed
  {
    if Tok(ts, i) != Keyword(Create) then Parsed(Invalid, i)
    else if Tok(ts, i + 1) != Keyword(Game) then Parsed(Invalid, i + 1)
    else Parsed(CreateGame, i + 2)
  }

  /** JOIN GAME <number> <identifier> <colour>, starting at token i. */
  function JoinGameAt(ts: Stream, i: nat): Parsed
  {
    if Tok(ts, i) != Keyword(Join) then Parsed(Invalid, i)
    else if Tok(ts, i + 1) != Keyword(Game) then Parsed(Invalid, i + 1)
    else if !Tok(ts, i + 2).Number? then Parsed(Invalid, i + 2)
    else if !Tok(ts, i + 3).Identifier? then Parsed(Invalid, i + 3)
    else if !IsColor(Tok(ts, i + 4)) then Parsed(Invalid, i + 4)
    else Parsed(JoinGame(Tok(ts, i + 2).n, Tok(ts, i + 3).name, ColorOf(Tok(ts, i + 4))), i + 5)
  }

  /** GAME <number> <colour> MOVE <coordinate> TO <coordinate>, starting at token i. */
  function MoveAt(ts: Stream, i: nat): Parsed
  {
    if Tok(ts, i) != Keyword(Game) then Parsed(Invalid, i)
    else if !Tok(ts, i + 1).Number? then Parsed(Invalid, i + 1)
    else if !IsColor(Tok(ts, i + 2)) then Parsed(Invalid, i + 2)
    else if Tok(ts, i + 3) != Keyword(Keywords.Move) then Parsed(Invalid, i + 3)
    else if !Tok(ts, i + 4).Coordinate? then Parsed(Invalid, i + 4)
    else if Tok(ts, i + 5) != Keyword(To) then Parsed(Invalid, i + 5)
    else if !Tok(ts, i + 6).Coordinate? then Parsed(Invalid, i + 6)
    else
      var from, to := Tok(ts, i + 4), Tok(ts, i + 6);
      Parsed(ASTNode.Move(Tok(ts, i + 1).n, ColorOf(Tok(ts, i + 2)), from.x, from.y, to.x, to.y), i + 7)
  }

  /** UNDO GAME <number>, starting at token i. */
  function UndoAt(ts: Stream, i: nat): Parsed
  {
    if Tok(ts, i) != Keyword(Keywords.Undo) then Parsed(Invalid, i)
    else if Tok(ts, i + 1) != Keyword(Game) then Parsed(Invalid, i + 1)
    else if !Tok(ts, i + 2).Number? then Parsed(Invalid, i + 2)
    else Parsed(ASTNode.Undo(Tok(ts, i + 2).n), i + 3)
  }

  /** GET GAME <number>, starting at token i. */
  function GetGameAt(ts: Stream, i: nat): Parsed
  {
    if Tok(ts, i) != Keyword(Get) then Parsed(Invalid, i)
    else if Tok(ts, i + 1) != Keyword(Game) then Parsed(Invalid, i + 1)
    else if !Tok(ts, i + 2).Number? then Parsed(Invalid, i + 2)
    else Parsed(GetGame(Tok(ts, i + 2).n), i + 3)
  }

  /** parse: dispatch on the current token without consuming it. */
  function ParseAt(ts: Stream, i: nat): Parsed
  {
    match Tok(ts, i)
    case Keyword(k) =>
      (match k
       case Create => CreateGameAt(ts, i)
       case Join => JoinGameAt(ts, i)
       case Game => MoveAt(ts, i)
       case Undo => UndoAt(ts, i)
       case Get => GetGameAt(ts, i)
       case _ => Parsed(Invalid, i))
    case _ => Parsed(Invalid, i)
  }

  /** Parsing a command does not panic: every token the parser asks the
      lexer for (those it consumes and the two it looks ahead) fits. */
  ghost predicate Parsable(command: string)
  {
    var ts := StreamOf(Trim(command));
    Fits(ts, ParseAt(ts, 0).used + 2)
  }

  /** The command a string denotes: Parser::new followed by parse. */
  ghost function Parse(command: string): ASTNode
  {
    ParseAt(StreamOf(Trim(command)), 0).node
  }

  class Parser {
    const lexer: Lexer
    /** The steps the lexer yields, one per call of next_token. */
    ghost const stream: Stream
    var currentToken: Token
    var peekToken: Token
    /** The number of tokens consumed so far. */
    ghost var used: nat

    /** currentToken and peekToken are the next two tokens of the stream, and
        the lexer stands just after the second. */
    ghost predicate Valid()
      reads this, lexer
    {
      lexer.Valid() && Follows(stream, lexer.input) && Fits(stream, used + 2) &&
      currentToken == Tok(stream, used) && peekToken == Tok(stream, used + 1) &&
      lexer.position == At(stream, used + 1).next
    }

    /** Parser::new: a lexer over the trimmed input and its first two tokens. */
    constructor (command: string)
      requires Fits(StreamOf(Trim(command)), 2)
      ensures Valid() && fresh(lexer) && lexer.input == Trim(command) && used == 0
      ensures stream == StreamOf(Trim(command))
    {
      var l := new Lexer(command);
      assert At(StreamOf(l.input), 0) == StepAt(l.input, 0) == Scan(l.input, 0);
      var current := l.NextToken();
      ghost var p := l.position;
      assert At(StreamOf(l.input), 1) == StepAt(l.input, 1) == Scan(l.input, p);
      var peek := l.NextToken();
      lexer, currentToken, peekToken, used := l, current, peek, 0;
      stream := StreamOf(l.input);
    }

    /** next_token: shift the look-ahead into the current token and lex one more. */
    method NextToken()
      requires Valid() && At(stream, used + 2).Step?
      modifies this, lexer
      ensures Valid() && used == old(used) + 1
    {
      ghost var k := used;
      currentToken := peekToken;
      peekToken := lexer.NextStep(stream, k + 1);
      used := used + 1;
      assert used + 1 == k + 2;
    }

    /** expect_keyword: consume the current token if it is keyword k. */
    method ExpectKeyword(k: Keywords) returns (ok: bool)
      requires Valid() && (Tok(stream, used) == Keyword(k) ==> At(stream, used + 2).Step?)
      modifies this, lexer
      ensures Valid() && ok == (Tok(stream, old(used)) == Keyword(k))
      ensures used == if ok then old(used) + 1 else old(used)
    {
      if currentToken.Keyword? && currentToken.keyword == k {
        NextToken();
        return true;
      }
      return false;
    }

    /** parse_color: consume a colour token. */
    method ParseColor() returns (c: Color)
      requires Valid() && (IsColor(Tok(stream, used)) ==> At(stream, used + 2).Step?)
      modifies this, lexer
      ensures Valid()
      ensures IsColor(Tok(stream, old(used))) ==> c == ColorOf(Tok(stream, old(used))) && used == old(used) + 1
      ensures !IsColor(Tok(stream, old(used))) ==> c == Color.None && used == old(used)
    {
      if currentToken.Red? {
        NextToken();
        return Color.Red;
      } else if currentToken.Black? {
        NextToken();
        return Color.Black;
      }
      return Color.None;
    }

    /** parse_number: consume a number token. */
    method ParseNumber() returns (ok: bool, n: u32)
      requires Valid() && (Tok(stream, used).Number? ==> At(stream, used + 2).Step?)
      modifies this, lexer
      ensures Valid() && ok == Tok(stream, old(used)).Number?
      ensures ok ==> n == Tok(stream, old(used)).n && used == old(used) + 1
      ensures !ok ==> used == old(used)
    {
      if currentToken.Number? {
        n := currentToken.n;
        NextToken();
        return true, n;
      }
      return false, 0;
    }

    /** parse_identifier: consume an identifier token. */
    method ParseIdentifier() returns (ok: bool, name: string)
      requires Valid() && (Tok(stream, used).Identifier? ==> At(stream, used + 2).Step?)
      modifies this, lexer
      ensures Valid() && ok == Tok(stream, old(used)).Identifier?
      ensures ok ==> name == Tok(stream, old(used)).name && used == old(used) + 1
      ensures !ok ==> used == old(used)
    {
      if currentToken.Identifier? {
        name := currentToken.name;
        NextToken();
        return true, name;
      }
      return false, "";
    }

    /** parse_coordinate: consume a coordinate token. */
    method ParseCoordinate() returns (ok: bool, x: u8, y: u8)
      requires Valid() && (Tok(stream, used).Coordinate? ==> At(stream, used + 2).Step?)
      modifies this, lexer
      ensures Valid() && ok == Tok(stream, old(used)).Coordinate?
      ensures ok ==> x == Tok(stream, old(used)).x && y == Tok(stream, old(used)).y && used == old(used) + 1
      ensures !ok ==> used == old(used)
    {
      if currentToken.Coordinate? {
        x, y := currentToken.x, currentToken.y;
        NextToken();
        return true, x, y;
      }
      return false, 0, 0;
    }

    method ParseCreateGame() returns (node: ASTNode)
      requires Valid() && Fits(stream, CreateGameAt(stream, used).used + 2)
      modifies this, lexer
      ensures Valid() && Parsed(node, used) == CreateGameAt(stream, old(used))
    {
      var ok := ExpectKeyword(Create);
      if !ok {
        return Invalid;
      }
      ok := ExpectKeyword(Game);
      if !ok {
        return Invalid;
      }
      return CreateGame;
    }

    method ParseJoinGame() returns (node: ASTNode)
      requires Valid() && Fits(stream, JoinGameAt(stream, used).used + 2)
      modifies this, lexer
      ensures Valid() && Parsed(node, used) == JoinGameAt(stream, old(used))
    {
      ghost var i := used;
      var ok := ExpectKeyword(Join);
      if !ok {
        return Invalid;
      }
      ok := ExpectKeyword(Game);
      if !ok {
        return Invalid;
      }
      assert used == i + 2;
      var gameId;
      ok, gameId := ParseNumber();
      if !ok {
        return Invalid;
      }
      assert used == i + 3;
      var name;
      ok, name := ParseIdentifier();
      if !ok {
        return Invalid;
      }
      assert used == i + 4;
      var color := ParseColor();
      if color.None? {
        return Invalid;
      }
      assert used == i + 5;
      return JoinGame(gameId, name, color);
    }

    method ParseMove() returns (node: ASTNode)
      requires Valid() && Fits(stream, MoveAt(stream, used).used + 2)
      modifies this, lexer
      ensures Valid() && Parsed(node, used) == MoveAt(stream, old(used))
    {
      ghost var i := used;
      var ok := ExpectKeyword(Game);
      if !ok {
        return Invalid;
      }
      assert Tok(stream, i) == Keyword(Game);
      var gameId;
      ok, gameId := ParseNumber();
      if !ok {
        return Invalid;
      }
      assert used == i + 2 && Tok(stream, i + 1).Number?;
      var color := ParseColor();
      if color.None? {
        return Invalid;
      }
      assert used == i + 3 && IsColor(Tok(stream, i + 2));
      ok := ExpectKeyword(Keywords.Move);
      if !ok {
        return Invalid;
      }
      assert used == i + 4 && Tok(stream, i + 3) == Keyword(Keywords.Move);
      var fromX, fromY;
      ok, fromX, fromY := ParseCoordinate();
      if !ok {
        return Invalid;
      }
      assert used == i + 5 && Tok(stream, i + 4).Coordinate?;
      ok := ExpectKeyword(To);
      if !ok {
        return Invalid;
      }
      assert used == i + 6 && Tok(stream, i + 5) == Keyword(To);
      var toX, toY;
      ok, toX, toY := ParseCoordinate();
      if !ok {
        return Invalid;
      }
      assert used == i + 7;
      return ASTNode.Move(gameId, color, fromX, fromY, toX, toY);
    }

    method ParseUndo() returns (node: ASTNode)
      requires Valid() && Fits(stream, UndoAt(stream, used).used + 2)
      modifies this, lexer
      ensures Valid() && Parsed(node, used) == UndoAt(stream, old(used))
    {
      var ok := ExpectKeyword(Keywords.Undo);
      if !ok {
        return Invalid;
      }
      ok := ExpectKeyword(Game);
      if !ok {
        return Invalid;
      }
      var gameId;
      ok, gameId := ParseNumber();
      if !ok {
        return Invalid;
      }
      return ASTNode.Undo(gameId);
    }

    method ParseGetGame() returns (node: ASTNode)
      requires Valid() && Fits(stream, GetGameAt(stream, used).used + 2)
      modifies this, lexer
      ensures Valid() && Parsed(node, used) == GetGameAt(stream, old(used))
    {
      var ok := ExpectKeyword(Get);
      if !ok {
        return Invalid;
      }
      ok := ExpectKeyword(Game);
      if !ok {
        return Invalid;
      }
      var gameId;
      ok, gameId := ParseNumber();
      if !ok {
        return Invalid;
      }
      return GetGame(gameId);
    }

    /** parse: dispatch on the current token to the command's parser. */
    method Parse() returns (node: ASTNode)
      requires Valid() && Fits(stream, ParseAt(stream, used).used + 2)
      modifies this, lexer
      ensures Valid() && Parsed(node, used) == ParseAt(stream, old(used))
    {
      if currentToken == Keyword(Create) {
        node := ParseCreateGame();
      } else if currentToken == Keyword(Join) {
        node := ParseJoinGame();
      } else if currentToken == Keyword(Game) {
        node := ParseMove();
      } else if currentToken == Keyword(Keywords.Undo) {
        node := ParseUndo();
      } else if currentToken == Keyword(Get) {
        node := ParseGetGame();
      } else {
        node := Invalid;
      }
    }
  }
}
