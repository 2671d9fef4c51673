/** The command lexer: a cursor over the trimmed input that reads one
    character at a time and groups characters into tokens. The methods of
    class Lexer are proved against the functions of this module, which say
    what token the lexer produces at a given position and where it stops. */
module Lexers {
  import opened Options
  import opened UInts
  import opened Text

  datatype Keywords = Game | Create | Join | Move | Undo | Get | To

  datatype Token =
    | Keyword(keyword: Keywords)
    | Red
    | Black
    | Number(n: u32)
    | Coordinate(x: u8, y: u8)
    | LeftParen
    | RightParen
    | Comma
    | Identifier(name: string)
    | Eof

  /** The character at index i, or '\0' past the end (what read_char loads). */
  function CharAt(s: string, i: nat): char
  {
    if i < |s| then s[i] else '\0'
  }

  /** The first position at or after p that does not hold whitespace. */
  function SkipFrom(s: string, p: nat): (q: nat)
    ensures p <= q && !IsWhitespace(CharAt(s, q))
    ensures p <= |s| ==> q <= |s|
    decreases |s| - p
  {
    if IsWhitespace(CharAt(s, p)) then SkipFrom(s, p + 1) else p
  }

  /** The end of the run of digits that starts at p. */
  function DigitsEnd(s: string, p: nat): (q: nat)
    ensures p <= q && !IsDigit(CharAt(s, q))
    ensures p <= |s| ==> q <= |s|
    decreases |s| - p
  {
    if IsDigit(CharAt(s, p)) then DigitsEnd(s, p + 1) else p
  }

  /** The end of the run of letters and digits that starts at p. */
  function AlnumEnd(s: string, p: nat): (q: nat)
    ensures p <= q && !IsAlphanumeric(CharAt(s, q))
    ensures p <= |s| ==> q <= |s|
    decreases |s| - p
  {
    if IsAlphanumeric(CharAt(s, p)) then AlnumEnd(s, p + 1) else p
  }

  /** The value of the digit run at p, as read_number parses it. */
  function NumberAt(s: string, p: nat): nat
    requires p <= |s|
  {
    ValueBetween(s, p, DigitsEnd(s, p))
  }

  /** The value of the digits s[p..q], most significant first. */
  function ValueBetween(s: string, p: nat, q: nat): nat
    requires p <= q <= |s|
    decreases q
  {
    if q == p then 0 else 10 * ValueBetween(s, p, q - 1) + DigitValue(s[q - 1])
  }

  /** What read_coordinate does at p: a coordinate and the position after
      its ')', the position where it gave up, or a number that overflows u32
      (read_number panics). */
  datatype CoordScan = Coord(x: u8, y: u8, next: nat) | NoCoord(stop: nat) | CoordOverflow

  function CoordinateAt(s: string, p: nat): CoordScan
  {
    if CharAt(s, p) != '(' then NoCoord(p)
    else
      var a := p + 1;
      if !IsDigit(CharAt(s, a)) then NoCoord(a)
      else
        var b := DigitsEnd(s, a);
        var x := NumberAt(s, a);
        if x > U32_MAX then CoordOverflow
        else if CharAt(s, b) != ',' then NoCoord(b)
        else
          var c := b + 1;
          if !IsDigit(CharAt(s, c)) then NoCoord(c)
          else
            var d := DigitsEnd(s, c);
            var y := NumberAt(s, c);
            if y > U32_MAX then CoordOverflow
            else if CharAt(s, d) != ')' then NoCoord(d)
            else Coord(x % 256, y % 256, d + 1)
  }

  /** The characters s[p..q], upper-cased. */
  function UpperBetween(s: string, p: nat, q: nat): string
    requires p <= q <= |s|
    decreases q - p
  {
    if p == q then [] else [ToUpper(s[p])] + UpperBetween(s, p + 1, q)
  }

  /** The token an upper-cased word denotes. */
  function WordToken(w: string): (t: Token)
    ensures t.Keyword? || t.Red? || t.Black? || t == Identifier(w)
  {
    if w == "GAME" then Keyword(Game)
    else if w == "CREATE" then Keyword(Create)
    else if w == "JOIN" then Keyword(Join)
    else if w == "MOVE" then Keyword(Move)
    else if w == "UNDO" then Keyword(Undo)
    else if w == "GET" then Keyword(Get)
    else if w == "TO" then Keyword(To)
    else if w == "RED" then Red
    else if w == "BLACK" then Black
    else Identifier(w)
  }

  /** One call of next_token: the token and the position after it, or an
      overflowing number, on which the source panics. */
  datatype Step = Step(token: Token, next: nat) | Overflow

  /** next_token at position p: skip whitespace, then dispatch on the character. */
  function Scan(s: string, p: nat): (r: Step)
    ensures r.Step? ==> p <= r.next
    ensures r.Step? && r.token != Eof ==> p < r.next
    ensures r.Step? && p <= |s| + 1 ==> r.next <= |s| + 1
  {
    var q := SkipFrom(s, p);
    var c := CharAt(s, q);
    if c == '(' then
      match CoordinateAt(s, q)
      case Coord(x, y, next) => Step(Coordinate(x, y), next)
      case NoCoord(stop) => Step(LeftParen, stop + 1)
      case CoordOverflow => Overflow
    else if c == ')' then Step(RightParen, q + 1)
    else if c == ',' then Step(Comma, q + 1)
    else if IsDigit(c) then
      var n := NumberAt(s, q);
      if n > U32_MAX then Overflow else Step(Number(n), DigitsEnd(s, q))
    else if IsLetter(c) then
      var e := AlnumEnd(s, q);
      Step(WordToken(UpperBetween(s, q, e)), e)
    else if c == '\0' then Step(Eof, q)
    else Step(Eof, q + 1)
  }

  /** What tokenize returns from position p: the tokens before the first
      Eof, or None when one of them overflows. */
  function Tokens(s: string, p: nat): (r: Option<seq<Token>>)
    requires p <= |s| + 1
    ensures r.Some? ==> forall i | 0 <= i < |r.value| :: r.value[i] != Eof
    decreases |s| + 1 - p
  {
    match Scan(s, p)
    case Overflow => None
    case Step(t, q) =>
      if t == Eof then Some([])
      else match Tokens(s, q)
        case None => None
        case Some(rest) => Some([t] + rest)
  }

  /** The k-th call of next_token on a fresh lexer over s (counting from 0);
      the lexer goes on after an Eof that consumed a character. */
  function StepAt(s: string, k: nat): Step
  {
    if k == 0 then Scan(s, 0)
    else match StepAt(s, k - 1)
      case Overflow => Overflow
      case Step(_, q) => Scan(s, q)
  }

  /** The steps a consumer of next_token sees, one per call. */
  type Stream = imap<nat, Step>

  /** Step k of a stream; a step the stream does not hold counts as an overflow. */
  function At(ts: Stream, k: nat): Step
  {
    if k in ts then ts[k] else Overflow
  }

  /** ts is the stream of a fresh lexer over s. The link is made only where
      a step of s is in view. */
  ghost predicate Follows(ts: Stream, s: string)
  {
    forall k {:trigger StepAt(s, k)} :: At(ts, k) == StepAt(s, k)
  }

  /** The step after the k-th is a scan from where that one stopped. */
  lemma StepNext(s: string, k: nat)
    requires StepAt(s, k).Step?
    ensures StepAt(s, k + 1) == Scan(s, StepAt(s, k).next)
  {
  }

  /** The digit value of a slice, read from its end, is the value read
      position by position. */
  lemma {:induction false} ValueOfSlice(s: string, p: nat, q: nat)
    requires p <= q <= |s|
    ensures Value(s[p..q]) == ValueBetween(s, p, q)
    decreases q
  {
    if q > p {
      ValueOfSlice(s, p, q - 1);
      assert s[p..q][..q - p - 1] == s[p..q - 1];
    }
  }

  /** Upper-casing a slice is upper-casing position by position. */
  lemma {:induction false} UpperOfSlice(s: string, p: nat, q: nat)
    requires p <= q <= |s|
    ensures Upper(s[p..q]) == UpperBetween(s, p, q)
    decreases q - p
  {
    if p < q {
      UpperOfSlice(s, p + 1, q);
      assert Upper(s[p..q]) == [ToUpper(s[p])] + Upper(s[p + 1..q]);
    }
  }

  class Lexer {
    const input: string
    var position: nat
    var readPosition: nat
    var ch: char

    /** The cursor invariant after the first read_char: ch is the character
        at position and readPosition is one past it. */
    ghost predicate Valid()
      reads this
    {
      readPosition == position + 1 && ch == CharAt(input, position)
    }

    /** Lexer::new: trim the input and load its first character. */
    constructor (source: string)
      ensures input == Trim(source) && Valid() && position == 0
    {
      input := Trim(source);
      position, readPosition, ch := 0, 0, '\0';
      new;
      ReadChar();
    }

    method ReadChar()
      modifies this
      ensures position == old(readPosition) && readPosition == old(readPosition) + 1
      ensures ch == CharAt(input, old(readPosition))
    {
      if readPosition >= |input| {
        ch := '\0';
      } else {
        ch := input[readPosition];
      }
      position := readPosition;
      readPosition := readPosition + 1;
    }

    method SkipWhitespace()
      requires Valid()
      modifies this
      ensures Valid() && position == SkipFrom(input, old(position))
    {
      while IsWhitespace(ch)
        invariant Valid() && old(position) <= position
        invariant SkipFrom(input, position) == SkipFrom(input, old(position))
        decreases |input| - position
      {
        ReadChar();
      }
    }

    /** read_number: consume the digit run and parse it; the parse panics
        when the run is empty or its value exceeds u32. */
    method ReadNumber() returns (n: u32)
      requires Valid() && IsDigit(ch) && NumberAt(input, position) <= U32_MAX
      modifies this
      ensures Valid() && position == DigitsEnd(input, old(position))
      ensures n == NumberAt(input, old(position))
    {
      var start := position;
      while IsDigit(ch)
        invariant Valid() && start <= position <= |input|
        invariant DigitsEnd(input, position) == DigitsEnd(input, start)
        decreases |input| - position
      {
        ReadChar();
      }
      ValueOfSlice(input, start, position);
      n := Value(input[start..position]);
    }

    /** read_identifier: consume the run of letters and digits and return it. */
    method ReadIdentifier() returns (w: string)
      requires Valid() && position <= |input|
      modifies this
      ensures Valid() && position == AlnumEnd(input, old(position))
      ensures w == input[old(position)..position]
    {
      var start := position;
      while IsAlphanumeric(ch)
        invariant Valid() && start <= position <= |input|
        invariant AlnumEnd(input, position) == AlnumEnd(input, start)
        decreases |input| - position
      {
        ReadChar();
      }
      w := input[start..position];
    }

    /** read_coordinate: `(digits,digits)`, each number cast to u8; it stops
        where the first character that does not fit stands, having consumed
        everything before it. */
    method ReadCoordinate() returns (r: Option<(u8, u8)>)
      requires Valid() && !CoordinateAt(input, position).CoordOverflow?
      modifies this
      ensures Valid()
      ensures CoordinateAt(input, old(position)).Coord? ==>
        r == Some((CoordinateAt(input, old(position)).x, CoordinateAt(input, old(position)).y)) &&
        position == CoordinateAt(input, old(position)).next
      ensures CoordinateAt(input, old(position)).NoCoord? ==>
        r == None && position == CoordinateAt(input, old(position)).stop
    {
      if ch != '(' {
        return None;
      }
      ReadChar();
      if !IsDigit(ch) {
        return None;
      }
      var x := ReadNumber();
      if ch != ',' {
        return None;
      }
      ReadChar();
      if !IsDigit(ch) {
        return None;
      }
      var y := ReadNumber();
      if ch != ')' {
        return None;
      }
      ReadChar();
      return Some((x % 256, y % 256));
    }

    /** next_token: the token at the cursor, as Scan says. */
    method NextToken() returns (t: Token)
      requires Valid() && Scan(input, position).Step?
      modifies this
      ensures Valid() && Scan(input, old(position)) == Step(t, position)
    {
      SkipWhitespace();
      if ch == '(' {
        var coord := ReadCoordinate();
        if coord.Some? {
          t := Coordinate(coord.value.0, coord.value.1);
        } else {
          ReadChar();
          t := LeftParen;
        }
      } else if ch == ')' {
        ReadChar();
        t := RightParen;
      } else if ch == ',' {
        ReadChar();
        t := Comma;
      } else if IsDigit(ch) {
        var n := ReadNumber();
        t := Number(n);
      } else if IsLetter(ch) {
        ghost var start := position;
        var ident := ReadIdentifier();
        t := WordToken(Upper(ident));
        UpperOfSlice(input, start, position);
      } else if ch == '\0' {
        t := Eof;
      } else {
        ReadChar();
        t := Eof;
      }
    }

    /** next_token seen as one step of a stream: the lexer stands after step
        k, and the call yields step k + 1. */
    method NextStep(ghost ts: Stream, ghost k: nat) returns (t: Token)
      requires Valid() && Follows(ts, input) && At(ts, k).Step? && position == At(ts, k).next && At(ts, k + 1).Step?
      modifies this
      ensures Valid() && At(ts, k + 1) == Step(t, position)
    {
      assert At(ts, k) == StepAt(input, k);
      StepNext(input, k);
      assert At(ts, k + 1) == StepAt(input, k + 1);
      t := NextToken();
    }

    /** tokenize: call next_token until it returns Eof, collecting the rest. */
    method Tokenize() returns (tokens: seq<Token>)
      requires Valid() && position <= |input| + 1 && Tokens(input, position).Some?
      modifies this
      ensures Valid() && tokens == Tokens(input, old(position)).value
    {
      tokens := [];
      while true
        invariant Valid() && position <= |input| + 1 && Tokens(input, position).Some?
        invariant Tokens(input, old(position)).value == tokens + Tokens(input, position).value
        decreases |input| + 1 - position
      {
        var token := NextToken();
        if token == Eof {
          break;
        }
        tokens := tokens + [token];
      }
    }
  }
}
