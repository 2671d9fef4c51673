/** The second command front end: it splits the trimmed input on whitespace
    and decides on the words by their number and their spelling, with
    keywords compared case-insensitively, game ids read as `u32` and
    coordinates written `(x,y)` read as two `u8`. Everything here is a pure
    function of the input text. */
module Commands {
  import opened Options
  import opened UInts
  import opened Text
  import Pieces

  datatype Command =
    | Move(gameId: u32, color: Pieces.Color, fromX: u8, fromY: u8, toX: u8, toY: u8)
    | CreateGame
    | JoinGame(gameId: u32, name: string, color: Pieces.Color)
    | GetGame(gameId: u32)
    | Undo(gameId: u32)
    | Invalid

  /** The digits `u32::from_str` and `u8::from_str` read: the word without
      one leading `+`. */
  function Magnitude(w: string): string
  {
    if |w| > 0 && w[0] == '+' then w[1..] else w
  }

  /** Rust's `from_str` for an unsigned type whose values lie below bound:
      an optional `+`, then at least one decimal digit, and the value must
      fit; leading zeros are allowed and nothing else is. */
  function Unsigned(w: string, bound: nat): (r: Option<nat>)
    ensures r.Some? <==> Magnitude(w) != [] && AllDigits(Magnitude(w)) && Value(Magnitude(w)) < bound
    ensures r.Some? ==> r.value < bound && r.value == Value(Magnitude(w))
  {
    var d := Magnitude(w);
    if d != [] && AllDigits(d) && Value(d) < bound then Some(Value(d)) else None
  }

  /** `str::parse::<u32>`. */
  function ParseU32(w: string): (r: Option<u32>)
    ensures r.Some? <==> Unsigned(w, U32_MAX + 1).Some?
    ensures r.Some? ==> r.value == Unsigned(w, U32_MAX + 1).value
  {
    match Unsigned(w, U32_MAX + 1)
    case Some(n) => Some(n)
    case None => None
  }

  /** `str::parse::<u8>`. */
  function ParseU8(w: string): (r: Option<u8>)
    ensures r.Some? <==> Unsigned(w, 256).Some?
    ensures r.Some? ==> r.value == Unsigned(w, 256).value
  {
    match Unsigned(w, 256)
    case Some(n) => Some(n)
    case None => None
  }

  /** The decimal rendering of a number is read back as that number, by
      both widths. */
  lemma ParseDecimal(n: nat)
    ensures n <= U32_MAX ==> ParseU32(Decimal(n)) == Some(n)
    ensures n < 256 ==> ParseU8(Decimal(n)) == Some(n)
    ensures ParseU32("+" + Decimal(n)) == ParseU32(Decimal(n))
    ensures ParseU8("+" + Decimal(n)) == ParseU8(Decimal(n))
  {
    var d := Decimal(n);
    assert Magnitude(d) == d;
    assert Magnitude("+" + d) == d;
  }

  /** What a number parse rejects: the empty word, a lone `+`, a sign
      other than one `+`, and a value beyond the width. */
  lemma ParseRejects(w: string)
    ensures ParseU32([]) == None && ParseU32("+") == None
    ensures |w| > 0 && w[0] == '-' ==> ParseU32(w) == None && ParseU8(w) == None
    ensures AllDigits(w) && Value(w) > U32_MAX ==> ParseU32(w) == None
    ensures AllDigits(w) && Value(w) >= 256 ==> ParseU8(w) == None
  {
    assert Magnitude("+") == [];
    if |w| > 0 && w[0] == '-' {
      assert Magnitude(w) == w && !IsDigit(w[0]);
    }
    if |w| > 0 && AllDigits(w) {
      assert Magnitude(w) == w;
    }
  }

  predicate IsParen(c: char)
  {
    c == '(' || c == ')'
  }

  /** The first position at or after i that does not hold a parenthesis, or
      |s|. */
  function ParenEnd(s: string, i: nat): (q: nat)
    requires i <= |s|
    ensures i <= q <= |s| && (q == |s| || !IsParen(s[q]))
    ensures forall k | i <= k < q :: IsParen(s[k])
    decreases |s| - i
  {
    if i < |s| && IsParen(s[i]) then ParenEnd(s, i + 1) else i
  }

  /** The position after the last character before j that is not a
      parenthesis, looking back no further than lo. */
  function ParenStart(s: string, lo: nat, j: nat): (q: nat)
    requires lo <= j <= |s|
    ensures lo <= q <= j && (q == lo || !IsParen(s[q - 1]))
    ensures forall k | q <= k < j :: IsParen(s[k])
    decreases j
  {
    if j > lo && IsParen(s[j - 1]) then ParenStart(s, lo, j - 1) else j
  }

  /** `str::trim_matches` with `(` and `)`: a contiguous middle part of the
      word, with only parentheses stripped on either side and none left at
      either end. */
  function StripParens(s: string): (r: string)
    ensures var a := ParenEnd(s, 0);
      a + |r| <= |s| && r == s[a..a + |r|] &&
      (forall i | 0 <= i < a :: IsParen(s[i])) &&
      (forall i | a + |r| <= i < |s| :: IsParen(s[i]))
    ensures r == [] || (!IsParen(r[0]) && !IsParen(r[|r| - 1]))
  {
    var a := ParenEnd(s, 0);
    s[a..ParenStart(s, a, |s|)]
  }

  /** One pair of parentheses around text that neither starts nor ends with
      one is stripped to that text. */
  lemma StripParensAround(t: string)
    requires t != [] && !IsParen(t[0]) && !IsParen(t[|t| - 1])
    ensures StripParens("(" + t + ")") == t
  {
    var s := "(" + t + ")";
    assert s[1] == t[0] && s[|s| - 2] == t[|t| - 1];
    assert ParenEnd(s, 1) == 1;
    assert ParenEnd(s, 0) == 1;
    assert ParenStart(s, 1, |s| - 1) == |s| - 1;
    assert ParenStart(s, 1, |s|) == |s| - 1;
    assert s[1..|s| - 1] == t;
  }

  /** The position of the first comma of s at or after i, or |s|. */
  function CommaAt(s: string, i: nat): (k: nat)
    requires i <= |s|
    ensures i <= k <= |s| && (k == |s| || s[k] == ',')
    decreases |s| - i
  {
    if i == |s| || s[i] == ',' then i else CommaAt(s, i + 1)
  }

  /** No comma stands before the first one. */
  lemma {:induction false} BeforeComma(s: string, i: nat)
    requires i <= |s|
    ensures CommaFree(s[i..CommaAt(s, i)])
    decreases |s| - i
  {
    if i < |s| && s[i] != ',' {
      BeforeComma(s, i + 1);
      assert s[i..CommaAt(s, i)] == [s[i]] + s[i + 1..CommaAt(s, i + 1)];
    }
  }

  /** `str::split(',')` from position i on: the pieces between commas, in
      order, empty ones included. */
  function SplitFrom(s: string, i: nat): (ps: seq<string>)
    requires i <= |s|
    ensures |ps| >= 1
    decreases |s| - i
  {
    var k := CommaAt(s, i);
    if k == |s| then [s[i..]] else [s[i..k]] + SplitFrom(s, k + 1)
  }

  function SplitCommas(s: string): seq<string>
  {
    SplitFrom(s, 0)
  }

  predicate CommaFree(s: string)
  {
    forall i | 0 <= i < |s| :: s[i] != ','
  }

  /** Pieces written with commas between them. */
  function JoinCommas(ps: seq<string>): string
  {
    if ps == [] then [] else if |ps| == 1 then ps[0] else ps[0] + "," + JoinCommas(ps[1..])
  }

  /** Put back together with commas, the pieces split returns are the
      text. */
  lemma {:induction false} SplitJoin(s: string, i: nat)
    requires i <= |s|
    ensures JoinCommas(SplitFrom(s, i)) == s[i..]
    decreases |s| - i
  {
    var k := CommaAt(s, i);
    if k < |s| {
      var ps := SplitFrom(s, i);
      var rest := SplitFrom(s, k + 1);
      assert ps == [s[i..k]] + rest;
      SplitJoin(s, k + 1);
      JoinCons(ps);
      assert ps[0] == s[i..k] && ps[1..] == rest;
      CommaSplice(s, i, k);
    }
  }

  /** Text around a comma is the part before, the comma, and the part
      after. */
  lemma CommaSplice(s: string, i: nat, k: nat)
    requires i <= k < |s| && s[k] == ','
    ensures s[i..] == s[i..k] + "," + s[k + 1..]
  {
  }

  /** The pieces split returns contain no comma. */
  lemma {:induction false} SplitCommaFree(s: string, i: nat)
    requires i <= |s|
    ensures forall k | 0 <= k < |SplitFrom(s, i)| :: CommaFree(SplitFrom(s, i)[k])
    decreases |s| - i
  {
    var k := CommaAt(s, i);
    var ps := SplitFrom(s, i);
    if k < |s| {
      SplitCommaFree(s, k + 1);
      BeforeComma(s, i);
      var rest := SplitFrom(s, k + 1);
      assert ps == [s[i..k]] + rest;
      forall j | 0 <= j < |ps|
        ensures CommaFree(ps[j])
      {
        if j > 0 {
          assert ps[j] == rest[j - 1];
        }
      }
    } else {
      BeforeComma(s, i);
    }
  }

  lemma JoinCons(ps: seq<string>)
    requires |ps| > 1
    ensures JoinCommas(ps) == ps[0] + "," + JoinCommas(ps[1..])
  {
  }

  /** Two comma-free pieces around one comma split back into those pieces. */
  lemma SplitTwo(a: string, b: string)
    requires CommaFree(a) && CommaFree(b)
    ensures SplitCommas(a + "," + b) == [a, b]
  {
    var s := a + "," + b;
    assert CommaAt(s, 0) == |a| by {
      CommaAtFree(s, 0, |a|);
    }
    assert CommaAt(s, |a| + 1) == |s| by {
      CommaAtFree(s, |a| + 1, |s|);
    }
    assert s[..|a|] == a && s[|a| + 1..] == b;
    assert SplitFrom(s, |a| + 1) == [b];
    assert SplitFrom(s, 0) == [a] + SplitFrom(s, |a| + 1);
  }

  /** Where the text holds no comma from i to k, the first comma at or after
      i is at k when there is one at k. */
  lemma {:induction false} CommaAtFree(s: string, i: nat, k: nat)
    requires i <= k <= |s| && (k == |s| || s[k] == ',')
    requires forall j | i <= j < k :: s[j] != ','
    ensures CommaAt(s, i) == k
    decreases k - i
  {
    if i < k {
      CommaAtFree(s, i + 1, k);
    }
  }

  /** `parse_coordinates`: strip the parentheses, split on commas, and read
      exactly two pieces as bytes. */
  function ParseCoordinates(w: string): (r: Option<(u8, u8)>)
    ensures r.Some? <==> var ps := SplitCommas(StripParens(w));
      |ps| == 2 && ParseU8(ps[0]).Some? && ParseU8(ps[1]).Some?
    ensures r.Some? ==> var ps := SplitCommas(StripParens(w));
      Some(r.value.0) == ParseU8(ps[0]) && Some(r.value.1) == ParseU8(ps[1])
  {
    var ps := SplitCommas(StripParens(w));
    if |ps| != 2 then None
    else
      match (ParseU8(ps[0]), ParseU8(ps[1]))
      case (Some(x), Some(y)) => Some((x, y))
      case _ => None
  }

  /** The text `(x,y)` of a square. */
  function CoordinateWord(x: u8, y: u8): string
  {
    "(" + Decimal(x) + "," + Decimal(y) + ")"
  }

  /** A square's text is read back as that square. */
  lemma ParseCoordinateWord(x: u8, y: u8)
    ensures ParseCoordinates(CoordinateWord(x, y)) == Some((x, y))
  {
    var dx, dy := Decimal(x), Decimal(y);
    var t := dx + "," + dy;
    assert t[0] == dx[0] && t[|t| - 1] == dy[|dy| - 1];
    assert "(" + dx + "," + dy + ")" == "(" + t + ")";
    StripParensAround(t);
    SplitTwo(dx, dy);
    ParseDecimal(x);
    ParseDecimal(y);
  }

  /** The colour word: RED or BLACK in any case. */
  function ColorWord(w: string): (r: Option<Pieces.Color>)
    ensures r.Some? ==> r.value != Pieces.Color.None
  {
    var u := Upper(w);
    if u == "RED" then Some(Pieces.Color.Red)
    else if u == "BLACK" then Some(Pieces.Color.Black)
    else None
  }

  /** Keyword comparison: the word upper-cased is the keyword. */
  predicate IsWord(w: string, keyword: string)
  {
    Upper(w) == keyword
  }

  /** `parse_move_command`: at least nine words, of which the second to
      seventh are read. */
  function MoveCommand(parts: seq<string>): (r: Command)
    ensures r == Invalid || r.Move?
  {
    if |parts| < 9 then Invalid
    else
      var id, c := ParseU32(parts[1]), ColorWord(parts[2]);
      var from, to := ParseCoordinates(parts[4]), ParseCoordinates(parts[6]);
      if id.None? || c.None? || !IsWord(parts[3], "MOVE") || from.None? || !IsWord(parts[5], "TO") || to.None? then Invalid
      else Move(id.value, c.value, from.value.0, from.value.1, to.value.0, to.value.1)
  }

  /** `parse_create_game_command`: exactly CREATE GAME. */
  function CreateGameCommand(parts: seq<string>): (r: Command)
    ensures r == Invalid || r.CreateGame?
  {
    if |parts| != 2 || !IsWord(parts[1], "GAME") then Invalid else CreateGame
  }

  /** `parse_join_game_command`: JOIN GAME, an id, a name kept as written and
      a colour, five words in all. */
  function JoinGameCommand(parts: seq<string>): (r: Command)
    ensures r == Invalid || r.JoinGame?
  {
    if |parts| != 5 || !IsWord(parts[1], "GAME") then Invalid
    else match (ParseU32(parts[2]), ColorWord(parts[4]))
      case (Some(id), Some(c)) => JoinGame(id, parts[3], c)
      case _ => Invalid
  }

  /** `parse_get_game_command`: GET GAME and an id. */
  function GetGameCommand(parts: seq<string>): (r: Command)
    ensures r == Invalid || r.GetGame?
  {
    if |parts| != 3 || !IsWord(parts[1], "GAME") then Invalid
    else match ParseU32(parts[2])
      case Some(id) => GetGame(id)
      case None => Invalid
  }

  /** `parse_undo_command`: UNDO GAME and an id. */
  function UndoCommand(parts: seq<string>): (r: Command)
    ensures r == Invalid || r.Undo?
  {
    if |parts| != 3 || !IsWord(parts[1], "GAME") then Invalid
    else match ParseU32(parts[2])
      case Some(id) => Undo(id)
      case None => Invalid
  }

  /** The dispatch of `CommandParser::parse` on the first word. */
  function CommandOfWords(parts: seq<string>): Command
  {
    if parts == [] then Invalid
    else if IsWord(parts[0], "GAME") then MoveCommand(parts)
    else if IsWord(parts[0], "CREATE") then CreateGameCommand(parts)
    else if IsWord(parts[0], "JOIN") then JoinGameCommand(parts)
    else if IsWord(parts[0], "GET") then GetGameCommand(parts)
    else if IsWord(parts[0], "UNDO") then UndoCommand(parts)
    else Invalid
  }

  /** `CommandParser::parse`: the words of the trimmed input, dispatched on
      the first of them. */
  function ParseCommand(input: string): Command
  {
    CommandOfWords(Words(Trim(input)))
  }

  /** The words that spell a command, stated word by word: how many there
      are and what each one must read as. */
  predicate Spells(ws: seq<string>, cmd: Command)
  {
    match cmd
    case CreateGame => |ws| == 2 && IsWord(ws[0], "CREATE") && IsWord(ws[1], "GAME")
    case JoinGame(id, name, c) =>
      |ws| == 5 && IsWord(ws[0], "JOIN") && IsWord(ws[1], "GAME") &&
      ParseU32(ws[2]) == Some(id) && ws[3] == name && ColorWord(ws[4]) == Some(c)
    case GetGame(id) =>
      |ws| == 3 && IsWord(ws[0], "GET") && IsWord(ws[1], "GAME") && ParseU32(ws[2]) == Some(id)
    case Undo(id) =>
      |ws| == 3 && IsWord(ws[0], "UNDO") && IsWord(ws[1], "GAME") && ParseU32(ws[2]) == Some(id)
    case Move(id, c, fx, fy, tx, ty) =>
      |ws| >= 9 && IsWord(ws[0], "GAME") && ParseU32(ws[1]) == Some(id) && ColorWord(ws[2]) == Some(c) &&
      IsWord(ws[3], "MOVE") && ParseCoordinates(ws[4]) == Some((fx, fy)) &&
      IsWord(ws[5], "TO") && ParseCoordinates(ws[6]) == Some((tx, ty))
    case Invalid => false
  }

  /** The five keywords that start a command are different words. */
  lemma KeywordsDistinct(w: string)
    ensures IsWord(w, "GAME") ==> !IsWord(w, "CREATE") && !IsWord(w, "JOIN") && !IsWord(w, "GET") && !IsWord(w, "UNDO")
    ensures IsWord(w, "CREATE") ==> !IsWord(w, "JOIN") && !IsWord(w, "GET") && !IsWord(w, "UNDO")
    ensures IsWord(w, "JOIN") ==> !IsWord(w, "GET") && !IsWord(w, "UNDO")
    ensures IsWord(w, "GET") ==> !IsWord(w, "UNDO")
  {
    var u := Upper(w);
    if |u| > 0 {
      assert u[0] == ToUpper(w[0]);
    }
  }

  /** Each sub-parser returns its command exactly when the words spell it. */
  lemma MoveCommandIff(ws: seq<string>, cmd: Command)
    requires cmd.Move? && ws != [] && IsWord(ws[0], "GAME")
    ensures MoveCommand(ws) == cmd <==> Spells(ws, cmd)
  {
  }

  lemma CreateGameCommandIff(ws: seq<string>)
    requires ws != [] && IsWord(ws[0], "CREATE")
    ensures CreateGameCommand(ws) == CreateGame <==> Spells(ws, CreateGame)
  {
  }

  lemma JoinGameCommandIff(ws: seq<string>, cmd: Command)
    requires cmd.JoinGame? && ws != [] && IsWord(ws[0], "JOIN")
    ensures JoinGameCommand(ws) == cmd <==> Spells(ws, cmd)
  {
  }

  lemma GetGameCommandIff(ws: seq<string>, cmd: Command)
    requires cmd.GetGame? && ws != [] && IsWord(ws[0], "GET")
    ensures GetGameCommand(ws) == cmd <==> Spells(ws, cmd)
  {
  }

  lemma UndoCommandIff(ws: seq<string>, cmd: Command)
    requires cmd.Undo? && ws != [] && IsWord(ws[0], "UNDO")
    ensures UndoCommand(ws) == cmd <==> Spells(ws, cmd)
  {
  }

  /** The dispatch returns a command exactly when the words spell it. */
  lemma CommandOfWordsIff(ws: seq<string>, cmd: Command)
    requires cmd != Invalid
    ensures CommandOfWords(ws) == cmd <==> Spells(ws, cmd)
  {
    if ws != [] {
      var w := ws[0];
      KeywordsDistinct(w);
      if IsWord(w, "GAME") {
        if cmd.Move? { MoveCommandIff(ws, cmd); }
      } else if IsWord(w, "CREATE") {
        if cmd.CreateGame? { CreateGameCommandIff(ws); }
      } else if IsWord(w, "JOIN") {
        if cmd.JoinGame? { JoinGameCommandIff(ws, cmd); }
      } else if IsWord(w, "GET") {
        if cmd.GetGame? { GetGameCommandIff(ws, cmd); }
      } else if IsWord(w, "UNDO") {
        if cmd.Undo? { UndoCommandIff(ws, cmd); }
      }
    }
  }

  /** parse returns a command exactly when the words of the trimmed input
      spell it. */
  lemma ParseCommandIff(input: string, cmd: Command)
    requires cmd != Invalid
    ensures ParseCommand(input) == cmd <==> Spells(Words(Trim(input)), cmd)
  {
    CommandOfWordsIff(Words(Trim(input)), cmd);
  }

  /** Input whose words spell no command is Invalid; in particular empty or
      blank input, and a first word that is none of the five keywords. */
  lemma ParseCommandInvalid(input: string)
    ensures ParseCommand(input) == Invalid <==> forall cmd :: !Spells(Words(Trim(input)), cmd)
    ensures Words(Trim(input)) == [] ==> ParseCommand(input) == Invalid
    ensures var ws := Words(Trim(input));
      (ws != [] && !IsWord(ws[0], "GAME") && !IsWord(ws[0], "CREATE") && !IsWord(ws[0], "JOIN") &&
       !IsWord(ws[0], "GET") && !IsWord(ws[0], "UNDO")) ==> ParseCommand(input) == Invalid
  {
    var r := ParseCommand(input);
    if r != Invalid {
      ParseCommandIff(input, r);
    } else {
      forall cmd | cmd != Invalid
        ensures !Spells(Words(Trim(input)), cmd)
      {
        ParseCommandIff(input, cmd);
      }
    }
  }

  function ColorName(c: Pieces.Color): string
    requires c != Pieces.Color.None
  {
    if c == Pieces.Color.Red then "RED" else "BLACK"
  }

  /** The words of a command as its grammar writes them: upper-case
      keywords, decimal numbers and `(x,y)` squares; a move in the seven
      words `GAME id colour MOVE (x,y) TO (x,y)`. */
  function CommandWords(cmd: Command): seq<string>
    requires cmd != Invalid && (cmd.Move? || cmd.JoinGame? ==> cmd.color != Pieces.Color.None)
  {
    match cmd
    case CreateGame => ["CREATE", "GAME"]
    case JoinGame(id, name, c) => ["JOIN", "GAME", Decimal(id), name, ColorName(c)]
    case GetGame(id) => ["GET", "GAME", Decimal(id)]
    case Undo(id) => ["UNDO", "GAME", Decimal(id)]
    case Move(id, c, fx, fy, tx, ty) =>
      ["GAME", Decimal(id), ColorName(c), "MOVE", CoordinateWord(fx, fy), "TO", CoordinateWord(tx, ty)]
  }

  /** A command the grammar can write: a colour is Red or Black and a
      player name is one word. */
  predicate Writable(cmd: Command)
  {
    cmd != Invalid &&
    (cmd.Move? || cmd.JoinGame? ==> cmd.color != Pieces.Color.None) &&
    (cmd.JoinGame? ==> Word(cmd.name))
  }

  lemma UpperKeyword(w: string)
    requires w in ["CREATE", "GAME", "JOIN", "GET", "UNDO", "MOVE", "TO", "RED", "BLACK"]
    ensures Upper(w) == w
  {
    assert forall i | 0 <= i < |w| :: 'A' <= w[i] <= 'Z';
  }

  /** The grammar's words, followed by more words, and the words they spell. */
  lemma SpellsCommandWords(cmd: Command, extra: seq<string>)
    requires Writable(cmd)
    ensures cmd.Move? ==> (Spells(CommandWords(cmd) + extra, cmd) <==> |extra| >= 2)
    ensures !cmd.Move? ==> (Spells(CommandWords(cmd) + extra, cmd) <==> extra == [])
  {
    if cmd.Move? {
      SpellsMoveWords(cmd, extra);
    } else {
      var w := CommandWords(cmd);
      OtherWordsRead(cmd);
      if extra == [] {
        assert w + extra == w;
      }
    }
  }

  /** A command other than a move spells its own words. */
  lemma OtherWordsRead(cmd: Command)
    requires Writable(cmd) && !cmd.Move?
    ensures Spells(CommandWords(cmd), cmd)
  {
    var w := CommandWords(cmd);
    assert IsWord(w[1], "GAME") by {
      UpperKeyword("GAME");
    }
    match cmd
    case CreateGame =>
      assert IsWord(w[0], "CREATE") by {
        UpperKeyword("CREATE");
      }
    case JoinGame(id, name, c) =>
      assert IsWord(w[0], "JOIN") by {
        UpperKeyword("JOIN");
      }
      assert ColorWord(w[4]) == Some(c) by {
        ColorWordName(c);
      }
      assert ParseU32(w[2]) == Some(id) by {
        ParseDecimal(id);
      }
    case GetGame(id) =>
      assert IsWord(w[0], "GET") by {
        UpperKeyword("GET");
      }
      assert ParseU32(w[2]) == Some(id) by {
        ParseDecimal(id);
      }
    case Undo(id) =>
      assert IsWord(w[0], "UNDO") by {
        UpperKeyword("UNDO");
      }
      assert ParseU32(w[2]) == Some(id) by {
        ParseDecimal(id);
      }
  }

  /** A colour's name is read back as that colour. */
  lemma ColorWordName(c: Pieces.Color)
    requires c != Pieces.Color.None
    ensures ColorWord(ColorName(c)) == Some(c)
  {
    UpperKeyword("RED");
    UpperKeyword("BLACK");
  }

  /** What each of the seven words of a move reads as. */
  lemma MoveWordsRead(cmd: Command)
    requires Writable(cmd) && cmd.Move?
    ensures var w := CommandWords(cmd);
      |w| == 7 && IsWord(w[0], "GAME") && ParseU32(w[1]) == Some(cmd.gameId) && ColorWord(w[2]) == Some(cmd.color) &&
      IsWord(w[3], "MOVE") && ParseCoordinates(w[4]) == Some((cmd.fromX, cmd.fromY)) &&
      IsWord(w[5], "TO") && ParseCoordinates(w[6]) == Some((cmd.toX, cmd.toY))
  {
    var w := CommandWords(cmd);
    assert IsWord(w[0], "GAME") && IsWord(w[3], "MOVE") && IsWord(w[5], "TO") by {
      UpperKeyword("GAME");
      UpperKeyword("MOVE");
      UpperKeyword("TO");
    }
    assert ParseU32(w[1]) == Some(cmd.gameId) by {
      assert w[1] == Decimal(cmd.gameId);
      ParseDecimal(cmd.gameId);
    }
    assert ColorWord(w[2]) == Some(cmd.color) by {
      assert w[2] == ColorName(cmd.color);
      ColorWordName(cmd.color);
    }
    assert ParseCoordinates(w[4]) == Some((cmd.fromX, cmd.fromY)) by {
      assert w[4] == CoordinateWord(cmd.fromX, cmd.fromY);
      ParseCoordinateWord(cmd.fromX, cmd.fromY);
    }
    assert ParseCoordinates(w[6]) == Some((cmd.toX, cmd.toY)) by {
      assert w[6] == CoordinateWord(cmd.toX, cmd.toY);
      ParseCoordinateWord(cmd.toX, cmd.toY);
    }
  }

  lemma SpellsMoveWords(cmd: Command, extra: seq<string>)
    requires Writable(cmd) && cmd.Move?
    ensures Spells(CommandWords(cmd) + extra, cmd) <==> |extra| >= 2
  {
    var w := CommandWords(cmd);
    var ws := w + extra;
    MoveWordsRead(cmd);
    assert ws[0] == w[0] && ws[1] == w[1] && ws[2] == w[2] && ws[3] == w[3];
    assert ws[4] == w[4] && ws[5] == w[5] && ws[6] == w[6];
  }

  /** Every word of a writable command's text is a word in the sense of
      split_whitespace. */
  lemma CommandWordsAreWords(cmd: Command)
    requires Writable(cmd)
    ensures forall i | 0 <= i < |CommandWords(cmd)| :: Word(CommandWords(cmd)[i])
  {
    var w := CommandWords(cmd);
    KeywordsAreWords();
    match cmd
    case CreateGame =>
    case JoinGame(id, name, c) =>
      DecimalIsWord(id);
    case GetGame(id) =>
      DecimalIsWord(id);
    case Undo(id) =>
      DecimalIsWord(id);
    case Move(id, c, fx, fy, tx, ty) =>
      DecimalIsWord(id);
      CoordinateWordIsWord(fx, fy);
      CoordinateWordIsWord(tx, ty);
  }

  lemma KeywordsAreWords()
    ensures Word("CREATE") && Word("GAME") && Word("JOIN") && Word("GET") && Word("UNDO")
    ensures Word("MOVE") && Word("TO") && Word("RED") && Word("BLACK")
  {
  }

  lemma DecimalIsWord(n: nat)
    ensures Word(Decimal(n))
  {
    var d := Decimal(n);
    assert forall i | 0 <= i < |d| :: IsDigit(d[i]);
  }

  lemma CoordinateWordIsWord(x: u8, y: u8)
    ensures Word(CoordinateWord(x, y))
  {
    var w := CoordinateWord(x, y);
    var dx, dy := Decimal(x), Decimal(y);
    assert w == "(" + dx + "," + dy + ")";
    assert forall i | 0 <= i < |dx| :: IsDigit(dx[i]);
    assert forall i | 0 <= i < |dy| :: IsDigit(dy[i]);
    forall i | 0 <= i < |w|
      ensures !IsWhitespace(w[i])
    {
      if 1 <= i < 1 + |dx| {
        assert w[i] == dx[i - 1];
      } else if 2 + |dx| <= i < 2 + |dx| + |dy| {
        assert w[i] == dy[i - 2 - |dx|];
      }
    }
  }

  /** The grammar's text of a command, with any further words after it: the
      command comes back exactly when a move has at least two more words
      and any other command none, so the seven-word move of the grammar is
      Invalid. */
  lemma ParseCommandWords(cmd: Command, extra: seq<string>)
    requires Writable(cmd) && forall i | 0 <= i < |extra| :: Word(extra[i])
    ensures cmd.Move? ==> (ParseCommand(Unwords(CommandWords(cmd) + extra)) == cmd <==> |extra| >= 2)
    ensures !cmd.Move? ==> (ParseCommand(Unwords(CommandWords(cmd) + extra)) == cmd <==> extra == [])
  {
    var ws := CommandWords(cmd) + extra;
    assert Words(Trim(Unwords(ws))) == ws by {
      CommandWordsAreWords(cmd);
      assert forall i | 0 <= i < |ws| :: Word(ws[i]);
      SplitUnwords(ws);
    }
    assert ParseCommand(Unwords(ws)) == cmd <==> Spells(ws, cmd) by {
      ParseCommandIff(Unwords(ws), cmd);
    }
    SpellsCommandWords(cmd, extra);
  }

  /** Words joined by spaces need no trimming and split back into the same
      words. */
  lemma SplitUnwords(ws: seq<string>)
    requires forall i | 0 <= i < |ws| :: Word(ws[i])
    ensures Words(Trim(Unwords(ws))) == ws
  {
    if ws != [] {
      UnwordsEnds(ws);
    }
    TrimUnchanged(Unwords(ws));
    WordsOfUnwords(ws);
  }

  /** A move needs at least nine words, so the grammar's seven-word move,
      such as `GAME 1 RED MOVE (0,0) TO (0,1)`, is Invalid. */
  lemma SevenWordMoveInvalid(cmd: Command)
    requires Writable(cmd) && cmd.Move?
    ensures |CommandWords(cmd)| == 7
    ensures ParseCommand(Unwords(CommandWords(cmd))) == Invalid
  {
    var ws := CommandWords(cmd);
    UpperKeyword("GAME");
    CommandWordsAreWords(cmd);
    WordsOfUnwords(ws);
    UnwordsEnds(ws);
    TrimUnchanged(Unwords(ws));
  }
}
