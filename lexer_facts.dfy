/** What the lexer does with text that spells tokens: each token written
    out and followed by whitespace (or the end) is scanned back as itself,
    so tokenize inverts the rendering of a token list, and the k-th call of
    next_token yields the k-th token and then Eof for ever. Two behaviours
    of the source that are easy to miss are stated on concrete inputs. */
module LexerFacts {
  import opened Options
  import opened UInts
  import opened Text
  import opened Lexers

  function KeywordName(k: Keywords): string
  {
    match k
    case Game => "GAME"
    case Create => "CREATE"
    case Join => "JOIN"
    case Move => "MOVE"
    case Undo => "UNDO"
    case Get => "GET"
    case To => "TO"
  }

  /** An upper-case run of letters and digits that starts with a letter. */
  predicate UpperName(w: string)
  {
    w != [] && IsLetter(w[0]) && forall i | 0 <= i < |w| :: IsAlphanumeric(w[i]) && ToUpper(w[i]) == w[i]
  }

  /** Tokens that have a spelling the lexer reads back: an identifier must be
      an upper-case name that is not a keyword or a colour, and Eof has none. */
  predicate Spellable(t: Token)
  {
    match t
    case Identifier(name) => UpperName(name) && WordToken(name) == t
    case Eof => false
    case _ => true
  }

  /** The text of a token. */
  function Spell(t: Token): string
  {
    match t
    case Keyword(k) => KeywordName(k)
    case Red => "RED"
    case Black => "BLACK"
    case Number(n) => Decimal(n)
    case Coordinate(x, y) => "(" + Decimal(x as nat) + "," + Decimal(y as nat) + ")"
    case LeftParen => "("
    case RightParen => ")"
    case Comma => ","
    case Identifier(name) => name
    case Eof => ""
  }

  /** Two words side by side form a word. */
  lemma WordConcat(a: string, b: string)
    requires Word(a) && Word(b)
    ensures Word(a + b)
  {
  }

  /** A string of digits is a word when it is not empty. */
  lemma DigitsWord(d: string)
    requires d != [] && AllDigits(d)
    ensures Word(d)
  {
  }

  /** The text of a spellable token is a word. */
  lemma SpellIsWord(t: Token)
    requires Spellable(t)
    ensures Word(Spell(t))
  {
    match t
    case Number(n) => DigitsWord(Decimal(n));
    case Coordinate(x, y) =>
      var dx, dy := Decimal(x as nat), Decimal(y as nat);
      DigitsWord(dx);
      DigitsWord(dy);
      WordConcat("(", dx);
      WordConcat("(" + dx, ",");
      WordConcat("(" + dx + ",", dy);
      WordConcat("(" + dx + "," + dy, ")");
    case _ =>
  }

  function Spells(ts: seq<Token>): (ws: seq<string>)
    ensures |ws| == |ts| && forall i | 0 <= i < |ts| :: ws[i] == Spell(ts[i])
  {
    seq(|ts|, i requires 0 <= i < |ts| => Spell(ts[i]))
  }

  /** A token list written out, one space between tokens. */
  function SpellAll(ts: seq<Token>): string
  {
    Unwords(Spells(ts))
  }

  /** How far the lexer gets past a spelled token: a lone '(' also consumes
      the character after it, because read_coordinate does not put back
      what it read. */
  function Width(t: Token): nat
  {
    |Spell(t)| + if t == LeftParen then 1 else 0
  }

  /** A run of digits from p to q ends at q. */
  lemma {:induction false} DigitsEndAt(s: string, p: nat, q: nat)
    requires p <= q <= |s| && !IsDigit(CharAt(s, q))
    requires forall k | p <= k < q :: IsDigit(s[k])
    ensures DigitsEnd(s, p) == q
    decreases q - p
  {
    if p < q {
      DigitsEndAt(s, p + 1, q);
    }
  }

  /** A run of letters and digits from p to q ends at q. */
  lemma {:induction false} AlnumEndAt(s: string, p: nat, q: nat)
    requires p <= q <= |s| && !IsAlphanumeric(CharAt(s, q))
    requires forall k | p <= k < q :: IsAlphanumeric(s[k])
    ensures AlnumEnd(s, p) == q
    decreases q - p
  {
    if p < q {
      AlnumEndAt(s, p + 1, q);
    }
  }

  /** A string that equals its own upper-casing character by character. */
  lemma UpperFixed(w: string)
    requires forall i | 0 <= i < |w| :: ToUpper(w[i]) == w[i]
    ensures Upper(w) == w
  {
  }

  /** A run of digits d at p, followed by a non-digit, is read back as the
      value of d. */
  lemma NumberAtDigits(s: string, p: nat, d: string)
    requires AllDigits(d) && p + |d| <= |s| && s[p..p + |d|] == d && !IsDigit(CharAt(s, p + |d|))
    ensures DigitsEnd(s, p) == p + |d| && NumberAt(s, p) == Value(d)
  {
    assert forall k | p <= k < p + |d| :: s[k] == d[k - p];
    DigitsEndAt(s, p, p + |d|);
    ValueOfSlice(s, p, p + |d|);
  }

  /** A name at p, followed by a non-alphanumeric character, is read whole
      and upper-cased. */
  lemma ScanName(s: string, p: nat, w: string)
    requires UpperName(w) && p + |w| <= |s| && s[p..p + |w|] == w
    requires !IsAlphanumeric(CharAt(s, p + |w|))
    ensures Scan(s, p) == Step(WordToken(w), p + |w|)
  {
    assert s[p] == w[0];
    assert forall k | p <= k < p + |w| :: s[k] == w[k - p];
    AlnumEndAt(s, p, p + |w|);
    UpperOfSlice(s, p, p + |w|);
    UpperFixed(w);
  }

  /** A slice that spells a + b spells a and then b. */
  lemma SliceSplit(s: string, p: nat, a: string, b: string)
    requires p + |a| + |b| <= |s| && s[p..p + |a| + |b|] == a + b
    ensures s[p..p + |a|] == a && s[p + |a|..p + |a| + |b|] == b
  {
    assert s[p..p + |a|] == s[p..p + |a| + |b|][..|a|];
    assert s[p + |a|..p + |a| + |b|] == s[p..p + |a| + |b|][|a|..];
  }

  /** read_coordinate at p, once the parenthesis, the two digit runs with
      their values, the comma and the closing parenthesis are known. */
  lemma CoordinateAtParts(s: string, p: nat, b: nat, d: nat, x: u8, y: u8)
    requires p + 1 < b && b + 1 < d && d < |s|
    requires s[p] == '(' && IsDigit(s[p + 1]) && DigitsEnd(s, p + 1) == b && NumberAt(s, p + 1) == x as nat
    requires s[b] == ',' && IsDigit(s[b + 1]) && DigitsEnd(s, b + 1) == d && NumberAt(s, b + 1) == y as nat
    requires s[d] == ')'
    ensures CoordinateAt(s, p) == Coord(x, y, d + 1)
  {
  }

  /** The pieces of "(" + dx + "," + dy + ")" written out at p. */
  lemma CoordinateSlices(s: string, p: nat, dx: string, dy: string)
    requires var n := 3 + |dx| + |dy|; p + n <= |s| && s[p..p + n] == "(" + dx + "," + dy + ")"
    ensures var b := p + 1 + |dx|;
      s[p] == '(' && s[p + 1..b] == dx && s[b] == ',' && s[b + 1..b + 1 + |dy|] == dy && s[b + 1 + |dy|] == ')'
  {
    SliceSplit(s, p, "(" + dx + "," + dy, ")");
    SliceSplit(s, p, "(" + dx + ",", dy);
    SliceSplit(s, p, "(" + dx, ",");
    SliceSplit(s, p, "(", dx);
    assert s[p] == s[p..p + 1][0];
    assert s[p + 1 + |dx|] == s[p + 1 + |dx|..p + 2 + |dx|][0];
    assert s[p + 2 + |dx| + |dy|] == s[p + 2 + |dx| + |dy|..p + 3 + |dx| + |dy|][0];
  }

  /** Two digit runs between the parentheses and the comma of a coordinate
      at p: where each run ends and what value it has. */
  lemma CoordinatePieces(s: string, p: nat, dx: string, dy: string)
    requires dx != [] && AllDigits(dx) && dy != [] && AllDigits(dy)
    requires var b := p + 1 + |dx|;
      b + 1 + |dy| < |s| && s[p] == '(' && s[p + 1..b] == dx && s[b] == ',' &&
      s[b + 1..b + 1 + |dy|] == dy && s[b + 1 + |dy|] == ')'
    ensures var b := p + 1 + |dx|;
      IsDigit(s[p + 1]) && DigitsEnd(s, p + 1) == b && NumberAt(s, p + 1) == Value(dx) &&
      IsDigit(s[b + 1]) && DigitsEnd(s, b + 1) == b + 1 + |dy| && NumberAt(s, b + 1) == Value(dy)
  {
    NumberAtDigits(s, p + 1, dx);
    NumberAtDigits(s, p + 1 + |dx| + 1, dy);
    assert s[p + 1] == dx[0] && s[p + 1 + |dx| + 1] == dy[0];
  }

  /** A coordinate written out at p is scanned as that coordinate. */
  lemma CoordinateAtSpelled(s: string, p: nat, x: u8, y: u8)
    requires var w := Spell(Coordinate(x, y)); p + |w| <= |s| && s[p..p + |w|] == w
    ensures CoordinateAt(s, p) == Coord(x, y, p + |Spell(Coordinate(x, y))|)
  {
    var dx, dy := Decimal(x as nat), Decimal(y as nat);
    CoordinateSlices(s, p, dx, dy);
    CoordinatePieces(s, p, dx, dy);
    CoordinateAtParts(s, p, p + 1 + |dx|, p + 1 + |dx| + 1 + |dy|, x, y);
  }

  /** The decimal digits of n at p, followed by a non-digit, scan as Number(n). */
  lemma ScanNumber(s: string, p: nat, n: u32)
    requires var d := Decimal(n); p + |d| <= |s| && s[p..p + |d|] == d && !IsDigit(CharAt(s, p + |d|))
    ensures Scan(s, p) == Step(Number(n), p + |Decimal(n)|)
  {
    assert s[p] == Decimal(n)[0];
    NumberAtDigits(s, p, Decimal(n));
  }

  /** A coordinate written out at p scans as that coordinate. */
  lemma ScanCoordinate(s: string, p: nat, x: u8, y: u8)
    requires var w := Spell(Coordinate(x, y)); p + |w| <= |s| && s[p..p + |w|] == w
    ensures Scan(s, p) == Step(Coordinate(x, y), p + |Spell(Coordinate(x, y))|)
  {
    assert s[p] == s[p..p + |Spell(Coordinate(x, y))|][0];
    CoordinateAtSpelled(s, p, x, y);
  }

  /** A parenthesis or comma at p, followed by a non-digit. */
  lemma ScanPunctuation(s: string, p: nat, t: Token)
    requires t == LeftParen || t == RightParen || t == Comma
    requires p < |s| && s[p] == Spell(t)[0] && !IsDigit(CharAt(s, p + 1))
    ensures Scan(s, p) == Step(t, p + Width(t))
  {
  }

  /** The text of t is written out at p. */
  predicate WrittenAt(s: string, p: nat, t: Token)
  {
    p + |Spell(t)| <= |s| && s[p..p + |Spell(t)|] == Spell(t)
  }

  /** Position e ends a token: it is the end of the input or holds whitespace. */
  predicate Delimited(s: string, e: nat)
  {
    e == |s| || (e < |s| && IsWhitespace(s[e]))
  }

  /** Tokens the lexer reads as words. */
  predicate IsWordToken(t: Token)
  {
    t.Keyword? || t.Red? || t.Black? || t.Identifier?
  }

  /** The text of a keyword, a colour or a spellable identifier is an
      upper-case name that the lexer maps back to the token. */
  lemma NameSpelled(t: Token)
    requires Spellable(t) && IsWordToken(t)
    ensures UpperName(Spell(t)) && WordToken(Spell(t)) == t
  {
  }

  /** A keyword, colour or identifier written out at p and delimited. */
  lemma ScanWord(s: string, p: nat, t: Token)
    requires Spellable(t) && IsWordToken(t) && WrittenAt(s, p, t) && Delimited(s, p + |Spell(t)|)
    ensures Scan(s, p) == Step(t, p + Width(t))
  {
    NameSpelled(t);
    ScanName(s, p, Spell(t));
  }

  /** A number written out at p and delimited. */
  lemma ScanNumberSpelled(s: string, p: nat, t: Token)
    requires t.Number? && WrittenAt(s, p, t) && Delimited(s, p + |Spell(t)|)
    ensures Scan(s, p) == Step(t, p + Width(t))
  {
    ScanNumber(s, p, t.n);
  }

  /** A coordinate written out at p. */
  lemma ScanCoordinateSpelled(s: string, p: nat, t: Token)
    requires t.Coordinate? && WrittenAt(s, p, t)
    ensures Scan(s, p) == Step(t, p + Width(t))
  {
    ScanCoordinate(s, p, t.x, t.y);
  }

  /** A parenthesis or comma written out at p and delimited. */
  lemma ScanPunctuationSpelled(s: string, p: nat, t: Token)
    requires (t == LeftParen || t == RightParen || t == Comma) && WrittenAt(s, p, t) && Delimited(s, p + |Spell(t)|)
    ensures Scan(s, p) == Step(t, p + Width(t))
  {
    assert s[p] == s[p..p + 1][0];
    ScanPunctuation(s, p, t);
  }

  /** A spellable token written out at p and followed by whitespace or the
      end of the input is what Scan returns there, and it consumes Width. */
  lemma ScanSpelled(s: string, p: nat, t: Token)
    requires Spellable(t) && WrittenAt(s, p, t) && Delimited(s, p + |Spell(t)|)
    ensures Scan(s, p) == Step(t, p + Width(t))
  {
    if t.Number? {
      ScanNumberSpelled(s, p, t);
    } else if t.Coordinate? {
      ScanCoordinateSpelled(s, p, t);
    } else if t == LeftParen || t == RightParen || t == Comma {
      ScanPunctuationSpelled(s, p, t);
    } else {
      ScanWord(s, p, t);
    }
  }

  /** Past the end of the input the lexer stays on Eof. */
  lemma EndIsEof(s: string, q: nat)
    requires q >= |s|
    ensures Scan(s, q) == Step(Eof, q)
  {
  }

  /** A whitespace character in front of the cursor changes nothing. */
  lemma ScanSkips(s: string, q: nat)
    requires IsWhitespace(CharAt(s, q))
    ensures Scan(s, q) == Scan(s, q + 1)
  {
  }

  /** The k-th call of next_token from position p (counting from 0). */
  function StepFrom(s: string, p: nat, k: nat): Step
    decreases k
  {
    match Scan(s, p)
    case Overflow => Overflow
    case Step(t, q) => if k == 0 then Scan(s, p) else StepFrom(s, q, k - 1)
  }

  /** One more call after the k-th scans from where that one stopped. */
  lemma {:induction false} StepFromNext(s: string, p: nat, k: nat)
    requires StepFrom(s, p, k).Step?
    ensures StepFrom(s, p, k + 1) == Scan(s, StepFrom(s, p, k).next)
    decreases k
  {
    if k > 0 {
      StepFromNext(s, Scan(s, p).next, k - 1);
    }
  }

  /** The calls counted from the start of the input are those counted from 0. */
  lemma {:induction false} StepAtFrom(s: string, k: nat)
    ensures StepAt(s, k) == StepFrom(s, 0, k)
    decreases k
  {
    if k > 0 {
      StepAtFrom(s, k - 1);
      if StepAt(s, k - 1).Step? {
        StepFromNext(s, 0, k - 1);
      } else {
        OverflowStays(s, 0, k - 1);
      }
    }
  }

  /** Once a call overflows, so does every later one. */
  lemma {:induction false} OverflowStays(s: string, p: nat, k: nat)
    requires StepFrom(s, p, k).Overflow?
    ensures StepFrom(s, p, k + 1).Overflow?
    decreases k
  {
    if k > 0 && Scan(s, p).Step? {
      OverflowStays(s, Scan(s, p).next, k - 1);
    }
  }

  /** From the end of the input every call yields Eof. */
  lemma {:induction false} EofForever(s: string, q: nat, k: nat)
    requires q >= |s|
    ensures StepFrom(s, q, k) == Step(Eof, q)
    decreases k
  {
    if k > 0 {
      EofForever(s, q, k - 1);
    }
  }

  /** The text from p on is a + b. */
  lemma DropSplit(s: string, p: nat, a: string, b: string)
    requires p <= |s| && s[p..] == a + b
    ensures p + |a| <= |s| && s[p..p + |a|] == a && s[p + |a|..] == b
  {
    assert s[p..p + |a|] == s[p..][..|a|];
    assert s[p + |a|..] == s[p..][|a|..];
  }

  /** Scanning from p reads the tokens ts one after the other and then
      stands at or beyond the end of the input. */
  ghost predicate Yields(s: string, p: nat, ts: seq<Token>)
    decreases |ts|, 1
  {
    if ts == [] then p >= |s| else YieldsFirst(s, p, ts)
  }

  /** Scanning at p reads ts[0], and the scans after it read the rest. */
  ghost predicate YieldsFirst(s: string, p: nat, ts: seq<Token>)
    requires ts != []
    decreases |ts|, 0
  {
    Scan(s, p).Step? && Scan(s, p).token == ts[0] && Yields(s, Scan(s, p).next, ts[1..])
  }

  /** Whitespace in front of a non-empty token list does not change what
      is read. */
  lemma YieldsSkips(s: string, q: nat, ts: seq<Token>)
    requires ts != [] && IsWhitespace(CharAt(s, q)) && Yields(s, q + 1, ts)
    ensures Yields(s, q, ts)
  {
    assert YieldsFirst(s, q + 1, ts);
    ScanSkips(s, q);
    assert YieldsFirst(s, q, ts);
  }

  /** The text from p on spells ts: each token's text, a single space
      between two of them, and nothing after the last. */
  ghost predicate SpelledFrom(s: string, p: nat, ts: seq<Token>)
    decreases |ts|, 1
  {
    if ts == [] then p == |s| else SpelledFirst(s, p, ts)
  }

  /** The text at p spells ts[0], and what follows it spells the rest. */
  ghost predicate SpelledFirst(s: string, p: nat, ts: seq<Token>)
    requires ts != []
    decreases |ts|, 0
  {
    var e := p + |Spell(ts[0])|;
    Spellable(ts[0]) && e <= |s| && s[p..e] == Spell(ts[0]) &&
    if |ts| == 1 then e == |s| else e < |s| && s[e] == ' ' && SpelledFrom(s, e + 1, ts[1..])
  }

  /** The text from p on is w, a space, and rest. */
  lemma DropSpace(s: string, p: nat, w: string, rest: string)
    requires p <= |s| && s[p..] == w + " " + rest
    ensures p + |w| < |s| && s[p..p + |w|] == w && s[p + |w|] == ' ' && s[p + |w| + 1..] == rest
  {
    DropSplit(s, p, w, " " + rest);
    DropSplit(s, p + |w|, " ", rest);
    assert s[p + |w|] == s[p + |w|..][0];
  }

  /** Every token of ts can be spelled (stated one token at a time). */
  predicate AllSpellable(ts: seq<Token>)
  {
    ts == [] || (Spellable(ts[0]) && AllSpellable(ts[1..]))
  }

  lemma {:induction false} AllSpellableOf(ts: seq<Token>)
    requires forall i | 0 <= i < |ts| :: Spellable(ts[i])
    ensures AllSpellable(ts)
  {
    if ts != [] {
      AllSpellableOf(ts[1..]);
    }
  }

  /** The text from p on is the strings ws with a single space between two
      of them. */
  ghost predicate Joined(s: string, p: nat, ws: seq<string>)
    decreases |ws|, 1
  {
    if ws == [] then p == |s| else JoinedFirst(s, p, ws)
  }

  /** The text at p is ws[0], and what follows it is the rest joined. */
  ghost predicate JoinedFirst(s: string, p: nat, ws: seq<string>)
    requires ws != []
    decreases |ws|, 0
  {
    var e := p + |ws[0]|;
    e <= |s| && s[p..e] == ws[0] &&
    if |ws| == 1 then e == |s| else e < |s| && s[e] == ' ' && Joined(s, e + 1, ws[1..])
  }

  /** Text that is Unwords(ws) from p on is ws joined. */
  lemma {:induction false} UnwordsJoined(s: string, p: nat, ws: seq<string>)
    requires ws != [] && p <= |s| && s[p..] == Unwords(ws)
    ensures Joined(s, p, ws)
    decreases |ws|
  {
    if |ws| == 1 {
      assert s[p..p + |ws[0]|] == s[p..];
    } else {
      DropSpace(s, p, ws[0], Unwords(ws[1..]));
      UnwordsJoined(s, p + |ws[0]| + 1, ws[1..]);
    }
    assert JoinedFirst(s, p, ws);
  }

  /** Joined texts of spellable tokens spell the tokens. */
  lemma {:induction false} JoinedSpelled(s: string, p: nat, ts: seq<Token>)
    requires AllSpellable(ts) && Joined(s, p, Spells(ts))
    ensures SpelledFrom(s, p, ts)
    decreases |ts|
  {
    if ts != [] {
      var ws := Spells(ts);
      assert JoinedFirst(s, p, ws);
      if |ts| > 1 {
        var e := p + |ws[0]|;
        assert ws[1..] == Spells(ts[1..]);
        JoinedSpelled(s, e + 1, ts[1..]);
      }
      assert SpelledFirst(s, p, ts);
    }
  }

  /** SpellAll's text spells its tokens. */
  lemma SpellAllSpelled(ts: seq<Token>)
    requires AllSpellable(ts)
    ensures SpelledFrom(SpellAll(ts), 0, ts)
  {
    var s := SpellAll(ts);
    if ts == [] {
    } else {
      assert s[0..] == s;
      UnwordsJoined(s, 0, Spells(ts));
      JoinedSpelled(s, 0, ts);
    }
  }

  /** The last spelled token is read, and then the end of the input. */
  lemma SpelledLast(s: string, p: nat, ts: seq<Token>)
    requires |ts| == 1 && SpelledFrom(s, p, ts)
    ensures Yields(s, p, ts)
  {
    assert SpelledFirst(s, p, ts);
    ScanSpelled(s, p, ts[0]);
    assert Yields(s, p + Width(ts[0]), ts[1..]);
    assert YieldsFirst(s, p, ts);
  }

  /** One spelled token and a space in front of text that yields the rest:
      the space is skipped, or swallowed after a lone '('. */
  lemma SpelledCons(s: string, p: nat, ts: seq<Token>, e: nat)
    requires |ts| > 1 && SpelledFirst(s, p, ts) && e == p + |Spell(ts[0])| && Yields(s, e + 1, ts[1..])
    ensures Yields(s, p, ts)
  {
    ScanSpelled(s, p, ts[0]);
    if ts[0] != LeftParen {
      YieldsSkips(s, e, ts[1..]);
    }
    assert YieldsFirst(s, p, ts);
  }

  /** The text after the first spelled token and its space spells the rest,
      and reading the rest from there means reading all of ts from p. */
  lemma SpelledStep(s: string, p: nat, ts: seq<Token>) returns (e: nat)
    requires |ts| > 1 && SpelledFrom(s, p, ts)
    ensures SpelledFrom(s, e + 1, ts[1..])
    ensures Yields(s, e + 1, ts[1..]) ==> Yields(s, p, ts)
  {
    assert SpelledFirst(s, p, ts);
    e := p + |Spell(ts[0])|;
    if Yields(s, e + 1, ts[1..]) {
      SpelledCons(s, p, ts, e);
    }
  }

  /** Text that spells ts from p is read as ts. */
  lemma {:induction false} SpelledYields(s: string, p: nat, ts: seq<Token>)
    requires SpelledFrom(s, p, ts)
    ensures Yields(s, p, ts)
    decreases |ts|
  {
    if |ts| == 1 {
      SpelledLast(s, p, ts);
    } else if |ts| > 1 {
      var e := SpelledStep(s, p, ts);
      SpelledYields(s, e + 1, ts[1..]);
    }
  }

  /** What the k-th call returns once the lexer is known to read ts. */
  lemma {:induction false} YieldsSteps(s: string, p: nat, ts: seq<Token>, k: nat)
    requires Yields(s, p, ts)
    ensures var r := StepFrom(s, p, k);
      r.Step? && r.token == if k < |ts| then ts[k] else Eof
    decreases |ts|
  {
    if ts == [] {
      EofForever(s, p, k);
    } else {
      assert YieldsFirst(s, p, ts);
      if k > 0 {
        YieldsSteps(s, Scan(s, p).next, ts[1..], k - 1);
      }
    }
  }

  /** What tokenize returns once the lexer is known to read ts. */
  lemma {:induction false} YieldsTokens(s: string, p: nat, ts: seq<Token>)
    requires Yields(s, p, ts) && p <= |s| + 1
    requires forall i | 0 <= i < |ts| :: ts[i] != Eof
    ensures Tokens(s, p) == Some(ts)
    decreases |ts|
  {
    if ts == [] {
      EndIsEof(s, p);
    } else {
      assert YieldsFirst(s, p, ts);
      YieldsTokens(s, Scan(s, p).next, ts[1..]);
      assert ts == [ts[0]] + ts[1..];
    }
  }

  /** tokenize inverts SpellAll on tokens that can be spelled. */
  lemma TokenizeSpelled(ts: seq<Token>)
    requires forall i | 0 <= i < |ts| :: Spellable(ts[i])
    ensures Tokens(SpellAll(ts), 0) == Some(ts)
  {
    AllSpellableOf(ts);
    SpellAllSpelled(ts);
    SpelledYields(SpellAll(ts), 0, ts);
    YieldsTokens(SpellAll(ts), 0, ts);
  }

  /** The k-th call of next_token on a lexer over SpellAll(ts) yields the k-th
      token, and Eof once the tokens are used up. */
  lemma StepAtSpelled(ts: seq<Token>, k: nat)
    requires forall i | 0 <= i < |ts| :: Spellable(ts[i])
    ensures var r := StepAt(SpellAll(ts), k);
      r.Step? && r.token == if k < |ts| then ts[k] else Eof
  {
    AllSpellableOf(ts);
    SpellAllSpelled(ts);
    SpelledYields(SpellAll(ts), 0, ts);
    YieldsSteps(SpellAll(ts), 0, ts, k);
    StepAtFrom(SpellAll(ts), k);
  }

  /** read_coordinate does not backtrack: after "(" and a character that
      cannot start a coordinate, that character is lost, so "(x)" lexes as
      a left and a right parenthesis. */
  lemma LeftParenSwallows()
    ensures Scan("(x)", 0) == Step(LeftParen, 2)
    ensures Tokens("(x)", 0) == Some([LeftParen, RightParen])
  {
    assert Scan("(x)", 2) == Step(RightParen, 3);
    assert Scan("(x)", 3) == Step(Eof, 3);
    assert Tokens("(x)", 3) == Some([]);
    assert [RightParen] + [] == [RightParen];
    assert Tokens("(x)", 2) == Some([RightParen]);
    assert [LeftParen] + [RightParen] == [LeftParen, RightParen];
  }

  /** A character the lexer does not know reads as Eof, so tokenize stops
      there while later calls of next_token go on past it. */
  lemma UnknownIsEof()
    ensures Scan("#GET", 0) == Step(Eof, 1)
    ensures Scan("#GET", 1) == Step(Keyword(Get), 4)
    ensures Tokens("#GET", 0) == Some([])
  {
    assert "#GET"[1..4] == "GET";
    ScanName("#GET", 1, "GET");
    assert WordToken("GET") == Keyword(Get);
  }
}
