/** Characters and strings as the command front ends see them: the ASCII
    character classes, upper-casing, trimming, splitting on whitespace, and
    decimal digits in both directions. */
module Text {

  /** The ASCII characters Rust's `char::is_whitespace` accepts: tab, line
      feed, vertical tab, form feed, carriage return and space. */
  predicate IsWhitespace(c: char)
  {
    c == ' ' || ('\t' <= c <= '\r')
  }

  predicate IsDigit(c: char)
  {
    '0' <= c <= '9'
  }

  predicate IsLetter(c: char)
  {
    ('a' <= c <= 'z') || ('A' <= c <= 'Z')
  }

  /** `char::is_alphanumeric` on ASCII: letters and digits. */
  predicate IsAlphanumeric(c: char)
  {
    IsLetter(c) || IsDigit(c)
  }

  predicate IsAscii(s: string)
  {
    forall i | 0 <= i < |s| :: s[i] as int < 128
  }

  /** `char::to_uppercase` on ASCII: lower-case letters move to upper case,
      everything else is kept. */
  function ToUpper(c: char): (u: char)
    ensures IsLetter(c) <==> IsLetter(u)
    ensures IsDigit(c) <==> IsDigit(u)
    ensures IsWhitespace(c) <==> IsWhitespace(u)
    ensures !('a' <= u <= 'z')
    ensures 'A' <= c <= 'Z' || !IsLetter(c) ==> u == c
  {
    if 'a' <= c <= 'z' then (c as int - 32) as char else c
  }

  /** `str::to_uppercase` on ASCII, character by character. */
  function Upper(s: string): (r: string)
    ensures |r| == |s| && forall i | 0 <= i < |s| :: r[i] == ToUpper(s[i])
  {
    seq(|s|, i requires 0 <= i < |s| => ToUpper(s[i]))
  }

  /** Upper-casing twice is upper-casing once. */
  lemma UpperIdempotent(s: string)
    ensures Upper(Upper(s)) == Upper(s)
  {
    assert forall i | 0 <= i < |s| :: ToUpper(ToUpper(s[i])) == ToUpper(s[i]);
  }

  /** Upper-casing commutes with taking a slice. */
  lemma UpperSlice(s: string, i: nat, j: nat)
    requires i <= j <= |s|
    ensures Upper(s)[i..j] == Upper(s[i..j])
  {
  }

  /** The first position at or after i that does not hold whitespace, or |s|. */
  function SpaceEnd(s: string, i: nat): (q: nat)
    requires i <= |s|
    ensures i <= q <= |s| && (q == |s| || !IsWhitespace(s[q]))
    ensures forall k | i <= k < q :: IsWhitespace(s[k])
    decreases |s| - i
  {
    if i < |s| && IsWhitespace(s[i]) then SpaceEnd(s, i + 1) else i
  }

  /** The position after the last character before j that is not whitespace,
      looking back no further than lo. */
  function SpaceStart(s: string, lo: nat, j: nat): (q: nat)
    requires lo <= j <= |s|
    ensures lo <= q <= j && (q == lo || !IsWhitespace(s[q - 1]))
    ensures forall k | q <= k < j :: IsWhitespace(s[k])
    decreases j
  {
    if j > lo && IsWhitespace(s[j - 1]) then SpaceStart(s, lo, j - 1) else j
  }

  /** `str::trim`: a contiguous middle part of the string; what it strips
      is whitespace, and neither of its ends is whitespace. */
  function Trim(s: string): (r: string)
    ensures var a := SpaceEnd(s, 0);
      a + |r| <= |s| && r == s[a..a + |r|] &&
      (forall i | 0 <= i < a :: IsWhitespace(s[i])) &&
      (forall i | a + |r| <= i < |s| :: IsWhitespace(s[i]))
    ensures r == [] || (!IsWhitespace(r[0]) && !IsWhitespace(r[|r| - 1]))
  {
    var a := SpaceEnd(s, 0);
    s[a..SpaceStart(s, a, |s|)]
  }

  /** Trimming again changes nothing. */
  lemma TrimIdempotent(s: string)
    ensures Trim(Trim(s)) == Trim(s)
  {
    var r := Trim(s);
    if r != [] {
      assert SpaceEnd(r, 0) == 0;
      assert SpaceStart(r, 0, |r|) == |r|;
      assert r[0..|r|] == r;
    }
  }

  /** A string that neither starts nor ends with whitespace is its own trim. */
  lemma TrimUnchanged(s: string)
    requires s == [] || (!IsWhitespace(s[0]) && !IsWhitespace(s[|s| - 1]))
    ensures Trim(s) == s
  {
    if s != [] {
      assert SpaceEnd(s, 0) == 0;
      assert SpaceStart(s, 0, |s|) == |s|;
      assert s[0..|s|] == s;
    }
  }

  /** The string without its leading whitespace (the text split_whitespace
      still has to split). */
  function TrimStart(s: string): (r: string)
    ensures |r| <= |s| && (r == [] || !IsWhitespace(r[0]))
    decreases |s|
  {
    if |s| > 0 && IsWhitespace(s[0]) then TrimStart(s[1..]) else s
  }

  /** Position of the first whitespace character of s, or |s|. */
  function WordEnd(s: string): (k: nat)
    ensures k <= |s| && (k == |s| || IsWhitespace(s[k]))
    ensures forall i | 0 <= i < k :: !IsWhitespace(s[i])
  {
    if s == [] || IsWhitespace(s[0]) then 0 else 1 + WordEnd(s[1..])
  }

  /** `str::split_whitespace`: the maximal runs of non-whitespace characters,
      in order. */
  function Words(s: string): (ws: seq<string>)
    decreases |s|
  {
    var t := TrimStart(s);
    if t == [] then []
    else
      var k := WordEnd(t);
      [t[..k]] + Words(t[k..])
  }

  /** Every piece split_whitespace returns is a word. */
  lemma {:induction false} WordsAreWords(s: string)
    ensures forall w | w in Words(s) :: Word(w)
    decreases |s|
  {
    var t := TrimStart(s);
    if t != [] {
      var k := WordEnd(t);
      assert Word(t[..k]);
      WordsAreWords(t[k..]);
    }
  }

  /** A word in the sense of split_whitespace: non-empty, without whitespace. */
  predicate Word(w: string)
  {
    w != [] && forall i | 0 <= i < |w| :: !IsWhitespace(w[i])
  }

  /** Words separated by single spaces. */
  function Unwords(ws: seq<string>): string
  {
    if ws == [] then [] else if |ws| == 1 then ws[0] else ws[0] + " " + Unwords(ws[1..])
  }

  /** Words joined by spaces start with the first word and end with the
      last, so the text neither starts nor ends with whitespace. */
  lemma {:induction false} UnwordsEnds(ws: seq<string>)
    requires ws != [] && forall i | 0 <= i < |ws| :: Word(ws[i])
    ensures Word(ws[0]) && Word(ws[|ws| - 1])
    ensures var u := Unwords(ws); u != [] && u[0] == ws[0][0] && u[|u| - 1] == ws[|ws| - 1][|ws[|ws| - 1]| - 1]
    ensures var u := Unwords(ws); !IsWhitespace(u[0]) && !IsWhitespace(u[|u| - 1])
    decreases |ws|
  {
    if |ws| > 1 {
      UnwordsEnds(ws[1..]);
      var rest := Unwords(ws[1..]);
      assert Unwords(ws) == ws[0] + " " + rest;
      assert ws[1..][|ws| - 2] == ws[|ws| - 1];
    }
  }

  /** Splitting words joined by spaces gives the words back. */
  lemma {:induction false} WordsOfUnwords(ws: seq<string>)
    requires forall i | 0 <= i < |ws| :: Word(ws[i])
    ensures Words(Unwords(ws)) == ws
    decreases |ws|
  {
    if |ws| == 1 {
      WordsCons(ws[0], []);
      assert ws[0] + [] == ws[0];
    } else if |ws| > 1 {
      WordsOfUnwords(ws[1..]);
      UnwordsStep(ws);
    }
  }

  /** One more word in front of a list that splits back correctly. */
  lemma UnwordsStep(ws: seq<string>)
    requires |ws| > 1 && Word(ws[0]) && Words(Unwords(ws[1..])) == ws[1..]
    ensures Words(Unwords(ws)) == ws
  {
    var rest := Unwords(ws[1..]);
    assert Unwords(ws) == ws[0] + (" " + rest);
    WordsCons(ws[0], " " + rest);
    LeadingSpace(rest);
    assert [ws[0]] + ws[1..] == ws;
  }

  /** A word followed by nothing or by whitespace is split off first. */
  lemma WordsCons(w: string, rest: string)
    requires Word(w) && (rest == [] || IsWhitespace(rest[0]))
    ensures Words(w + rest) == [w] + Words(rest)
  {
    var s := w + rest;
    assert TrimStart(s) == s;
    WordEndOf(w, rest);
    assert s[|w|..] == rest;
  }

  /** A word followed by text that starts with whitespace (or nothing) ends
      where the word does. */
  lemma {:induction false} WordEndOf(w: string, rest: string)
    requires Word(w) && (rest == [] || IsWhitespace(rest[0]))
    ensures WordEnd(w + rest) == |w| && (w + rest)[..|w|] == w
    decreases |w|
  {
    if |w| > 1 {
      assert (w + rest)[1..] == w[1..] + rest;
      WordEndOf(w[1..], rest);
    } else {
      assert (w + rest)[1..] == rest;
    }
  }

  /** A leading space does not change the split. */
  lemma LeadingSpace(s: string)
    ensures Words(" " + s) == Words(s)
  {
    assert (" " + s)[1..] == s;
  }

  /** The value of a decimal digit. */
  function DigitValue(c: char): (d: nat)
    ensures d < 10
  {
    if IsDigit(c) then c as int - '0' as int else 0
  }

  /** The digit of a value below ten. */
  function DigitOf(d: nat): (c: char)
    requires d < 10
    ensures IsDigit(c) && DigitValue(c) == d
  {
    ('0' as int + d) as char
  }

  predicate AllDigits(s: string)
  {
    forall i | 0 <= i < |s| :: IsDigit(s[i])
  }

  /** The number a string of decimal digits spells, most significant first. */
  function Value(s: string): nat
  {
    if s == [] then 0 else 10 * Value(s[..|s| - 1]) + DigitValue(s[|s| - 1])
  }

  /** The decimal rendering of n, without leading zeros (Rust's `Display`). */
  function Decimal(n: nat): (r: string)
    ensures r != [] && AllDigits(r) && Value(r) == n
    ensures n > 0 ==> r[0] != '0'
  {
    if n < 10 then [DigitOf(n)]
    else
      var r := Decimal(n / 10) + [DigitOf(n % 10)];
      assert r[..|r| - 1] == Decimal(n / 10);
      r
  }

  /** A digit string with a digit appended. */
  lemma ValueSnoc(s: string, c: char)
    ensures Value(s + [c]) == 10 * Value(s) + DigitValue(c)
  {
    assert (s + [c])[..|s|] == s;
  }
}
