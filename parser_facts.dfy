/** What the parser accepts: every command is exactly one fixed sequence of
    tokens, the parser reads nothing beyond the tokens it examines, and the
    text of a command's tokens, lexed and parsed, gives the command back. */
module ParserFacts {
  import opened UInts
  import opened Pieces
  import opened Text
  import opened Lexers
  import opened LexerFacts
  import opened Parsers

  /** A node the parser can produce on success: not Invalid, and any colour
      in it is Red or Black. */
  predicate IsCommand(node: ASTNode)
  {
    match node
    case Invalid => false
    case JoinGame(_, _, c) => c != Color.None
    case Move(_, c, _, _, _, _) => c != Color.None
    case _ => true
  }

  function ColorToken(c: Color): (t: Token)
    requires c != Color.None
    ensures IsColor(t) && ColorOf(t) == c
  {
    match c
    case Red => Token.Red
    case Black => Token.Black
  }

  /** The tokens of a command, in the order the parser reads them. */
  function CommandTokens(node: ASTNode): seq<Token>
    requires IsCommand(node)
  {
    match node
    case CreateGame => [Keyword(Create), Keyword(Game)]
    case JoinGame(id, name, c) => [Keyword(Join), Keyword(Game), Number(id), Identifier(name), ColorToken(c)]
    case Move(id, c, fx, fy, tx, ty) =>
      [Keyword(Game), Number(id), ColorToken(c), Keyword(Keywords.Move), Coordinate(fx, fy), Keyword(To), Coordinate(tx, ty)]
    case Undo(id) => [Keyword(Keywords.Undo), Keyword(Game), Number(id)]
    case GetGame(id) => [Keyword(Get), Keyword(Game), Number(id)]
  }

  /** The tokens of the stream from call i on start with ws. */
  predicate TokensAt(ts: Stream, i: nat, ws: seq<Token>)
  {
    forall k | 0 <= k < |ws| :: Tok(ts, i + k) == ws[k]
  }

  /** The call after the last token parse looks at: it looks at the tokens
      it consumes and, when it fails, at the one it rejected. */
  function Examined(p: Parsed): nat
  {
    if p.node.Invalid? then p.used + 1 else p.used
  }

  /** A command's tokens at i parse as that command and consume exactly its
      tokens. */
  lemma ParseCommandTokens(ts: Stream, i: nat, node: ASTNode)
    requires IsCommand(node) && TokensAt(ts, i, CommandTokens(node))
    ensures ParseAt(ts, i) == Parsed(node, i + |CommandTokens(node)|)
  {
    var ws := CommandTokens(node);
    assert Tok(ts, i) == ws[0] && Tok(ts, i + 1) == ws[1];
    if |ws| > 2 {
      assert Tok(ts, i + 2) == ws[2];
    }
    if |ws| > 4 {
      assert Tok(ts, i + 3) == ws[3] && Tok(ts, i + 4) == ws[4];
    }
    if |ws| > 6 {
      assert Tok(ts, i + 5) == ws[5] && Tok(ts, i + 6) == ws[6];
    }
  }

  /** Whatever parses as a command at i is that command's tokens at i, and
      parse consumed exactly them. */
  lemma ParsedCommand(ts: Stream, i: nat)
    requires ParseAt(ts, i).node != Invalid
    ensures var p := ParseAt(ts, i);
      IsCommand(p.node) && p.used == i + |CommandTokens(p.node)| && TokensAt(ts, i, CommandTokens(p.node))
  {
    var p := ParseAt(ts, i);
    var ws := CommandTokens(p.node);
    forall k | 0 <= k < |ws|
      ensures Tok(ts, i + k) == ws[k]
    {
      if k == 0 {
        assert i + k == i;
      }
    }
  }

  /** A command is parsed at i exactly when its tokens stand at i. */
  lemma ParseIff(ts: Stream, i: nat, node: ASTNode)
    requires IsCommand(node)
    ensures ParseAt(ts, i).node == node <==> TokensAt(ts, i, CommandTokens(node))
  {
    if ParseAt(ts, i).node == node {
      ParsedCommand(ts, i);
    }
    if TokensAt(ts, i, CommandTokens(node)) {
      ParseCommandTokens(ts, i, node);
    }
  }

  /** Only the five command keywords start a command; on any other token
      parse returns Invalid without consuming anything. */
  lemma ParseStart(ts: Stream, i: nat)
    ensures ParseAt(ts, i).node != Invalid ==>
      Tok(ts, i) in [Keyword(Create), Keyword(Join), Keyword(Game), Keyword(Keywords.Undo), Keyword(Get)]
    ensures !(Tok(ts, i) in [Keyword(Create), Keyword(Join), Keyword(Game), Keyword(Keywords.Undo), Keyword(Get)]) ==>
      ParseAt(ts, i) == Parsed(Invalid, i)
  {
    if ParseAt(ts, i).node != Invalid {
      ParsedCommand(ts, i);
      assert Tok(ts, i + 0) == CommandTokens(ParseAt(ts, i).node)[0];
    }
  }

  /** parse consumes at most seven tokens and looks at no more than it
      consumes plus one. */
  lemma ParseBounds(ts: Stream, i: nat)
    ensures var p := ParseAt(ts, i); i <= p.used <= i + 7 && i < Examined(p) <= i + 7
  {
  }

  /** Tokens beyond the ones parse examines do not change its result. */
  lemma ParseLocal(ts: Stream, us: Stream, i: nat)
    requires forall k | i <= k < Examined(ParseAt(ts, i)) :: Tok(ts, k) == Tok(us, k)
    ensures ParseAt(us, i) == ParseAt(ts, i)
  {
    var p := ParseAt(ts, i);
    if p.node != Invalid {
      ParsedCommand(ts, i);
      var ws := CommandTokens(p.node);
      forall k | 0 <= k < |ws|
        ensures Tok(us, i + k) == ws[k]
      {
        assert Tok(ts, i + k) == ws[k];
      }
      ParseCommandTokens(us, i, p.node);
    }
  }

  /** A command whose identifier, if any, the lexer reads back as that
      identifier: upper case, starting with a letter, and not a keyword or
      a colour. */
  predicate Writable(node: ASTNode)
  {
    IsCommand(node) &&
    (node.JoinGame? ==> Spellable(Identifier(node.name)))
  }

  /** The text of a command: its tokens written out, one space between two. */
  function CommandText(node: ASTNode): string
    requires IsCommand(node)
  {
    SpellAll(CommandTokens(node))
  }

  /** Every token of a writable command has a spelling. */
  lemma WritableSpellable(node: ASTNode)
    requires Writable(node)
    ensures forall k | 0 <= k < |CommandTokens(node)| :: Spellable(CommandTokens(node)[k])
  {
  }

  /** The text of spelled tokens already is its own trim. */
  lemma SpellAllTrimmed(ts: seq<Token>)
    requires forall k | 0 <= k < |ts| :: Spellable(ts[k])
    ensures Trim(SpellAll(ts)) == SpellAll(ts)
  {
    var ws := Spells(ts);
    forall k | 0 <= k < |ws|
      ensures Word(ws[k])
    {
      SpellIsWord(ts[k]);
    }
    if ws != [] {
      UnwordsEnds(ws);
    }
    TrimUnchanged(SpellAll(ts));
  }

  /** The stream of the lexer over the text of spelled tokens: the tokens,
      then Eof, and no overflow. */
  lemma StreamOfSpelled(ts: seq<Token>)
    requires forall k | 0 <= k < |ts| :: Spellable(ts[k])
    ensures var st := StreamOf(SpellAll(ts)); TokensAt(st, 0, ts) && forall k :: At(st, k).Step?
  {
    var st := StreamOf(SpellAll(ts));
    forall k: nat
      ensures At(st, k).Step? && Tok(st, k) == if k < |ts| then ts[k] else Eof
    {
      StepAtSpelled(ts, k);
    }
    forall k | 0 <= k < |ts|
      ensures Tok(st, 0 + k) == ts[k]
    {
      assert 0 + k == k;
    }
  }

  /** Lexing and parsing the text of a writable command gives the command
      back, and parsing it does not panic. */
  lemma ParseCommandText(node: ASTNode)
    requires Writable(node)
    ensures Parsable(CommandText(node)) && Parse(CommandText(node)) == node
  {
    var ts := CommandTokens(node);
    WritableSpellable(node);
    SpellAllTrimmed(ts);
    StreamOfSpelled(ts);
    var st := StreamOf(SpellAll(ts));
    ParseCommandTokens(st, 0, node);
  }
}
