/**
  JSON with comments and spare commas, brought down to JSON. The text is read as
  tokens, so that a quote, a comment mark or a comma means the same to both passes of
  the scanner.
 */
module JsonExtensions {
  import opened Collections
  import opened JsText

  /**
    A stretch of text the scanner takes at once: a string literal up to its closing
    quote, a line break or the end; a line comment with its line break; a block
    comment; a block comment with no end; any other character.
   */
  datatype Token =
    | Literal(text: string)
    | Line(text: string)
    | Block(text: string)
    | Open(text: string)
    | Other(c: char)

  predicate IsQuote(c: char) {
    c == '"' || c == '\''
  }

  /** How many characters a literal takes after its opening quote. */
  function LiteralRest(s: string, quote: char): (n: nat)
    ensures n <= |s|
  {
    if s == [] then 0
    else if s[0] == quote || s[0] == '\n' then 1
    else if s[0] != '\\' then 1 + LiteralRest(s[1..], quote)
    else if |s| == 1 then 1
    else 2 + LiteralRest(s[2..], quote)
  }

  /** The number of characters before the first line break. */
  function LineLength(s: string): (n: nat)
    ensures n <= |s|
    ensures n < |s| ==> s[n] == '\n'
    ensures '\n' !in s[..n]
  {
    if s == [] || s[0] == '\n' then 0
    else
      var n := LineLength(s[1..]);
      assert s[..n + 1] == [s[0]] + s[1..][..n];
      n + 1
  }

  /** The position after the first comment end, if there is one. */
  function AfterCommentEnd(s: string): (r: Option<nat>)
    ensures r.Some? ==> 2 <= r.value <= |s|
  {
    if |s| < 2 then None
    else if s[0] == '*' && s[1] == '/' then Some(2)
    else
      var r := AfterCommentEnd(s[1..]);
      if r.None? then None else Some(r.value + 1)
  }

  function TextOf(t: Token): string {
    match t
    case Other(c) => [c]
    case _ => t.text
  }

  function Next(s: string): (t: Token)
    requires s != []
    ensures TextOf(t) != [] && TextOf(t) <= s
  {
    if IsQuote(s[0]) then Literal(s[..1 + LiteralRest(s[1..], s[0])])
    else if "//" <= s then
      var n := LineLength(s);
      Line(if n < |s| then s[..n + 1] else s)
    else if "/*" <= s then
      var end := AfterCommentEnd(s[2..]);
      if end.None? then Open(s) else Block(s[..2 + end.value])
    else Other(s[0])
  }

  function Lex(s: string): seq<Token> {
    if s == [] then []
    else
      var t := Next(s);
      [t] + Lex(s[|TextOf(t)|..])
  }

  function Texts(tokens: seq<Token>): string {
    if tokens == [] then [] else TextOf(tokens[0]) + Texts(tokens[1..])
  }

  // --- The two passes, on tokens ----------------------------------------------

  /** A block comment's characters as spaces, its line breaks kept. */
  function Blanked(s: string): (r: string)
    ensures |r| == |s|
    ensures forall i :: 0 <= i < |s| ==> r[i] == if s[i] == '\n' then '\n' else ' '
  {
    seq(|s|, i requires 0 <= i < |s| => if s[i] == '\n' then '\n' else ' ')
  }

  function Others(s: string): (r: seq<Token>)
    ensures |r| == |s| && forall i :: 0 <= i < |r| ==> r[i] == Other(s[i])
  {
    seq(|s|, i requires 0 <= i < |s| => Other(s[i]))
  }

  /** Comments become spaces, line breaks kept; strings and everything else stay. */
  function PlainTokens(tokens: seq<Token>): seq<Token> {
    if tokens == [] then []
    else
      var t := tokens[0];
      (match t
       case Line(_) => [Other('\n')]
       case Block(text) => Others(Blanked(text))
       case _ => [t]) + PlainTokens(tokens[1..])
  }

  predicate IsBlank(t: Token) {
    t.Other? && IsSpace(t.c)
  }

  /** Whether only white space separates this point from a closing bracket. */
  predicate CloserFollows(tokens: seq<Token>) {
    tokens != [] &&
    if IsBlank(tokens[0]) then CloserFollows(tokens[1..])
    else tokens[0] == Other('}') || tokens[0] == Other(']')
  }

  /** The character the scanner remembers of a token. */
  function Mark(t: Token): char {
    match t
    case Other(c) => c
    case _ => if t.text == [] then ' ' else t.text[0]
  }

  predicate TrailsElement(last: Option<char>) {
    last.Some? && last.value !in {'{', '[', ','}
  }

  /** Drops a comma that trails an element; `last` is the last significant character kept. */
  function Drop(tokens: seq<Token>, last: Option<char>): seq<Token> {
    if tokens == [] then []
    else
      var t := tokens[0];
      if t == Other(',') && CloserFollows(tokens[1..]) && TrailsElement(last) then Drop(tokens[1..], last)
      else [t] + Drop(tokens[1..], if IsBlank(t) then last else Some(Mark(t)))
  }

  /** None where the scanner throws. */
  function Strip(text: string): Option<string> {
    var tokens := Lex(StripBOM(text));
    if exists t :: t in tokens && t.Open? then None
    else Some(Texts(Drop(PlainTokens(tokens), None)))
  }

  // --- Reading token text back ------------------------------------------------

  /** Nothing is lost or added by reading text as tokens. */
  lemma {:induction false} TextsOfLex(s: string)
    ensures Texts(Lex(s)) == s
  {
    if s != [] {
      var t := Next(s);
      var rest := s[|TextOf(t)|..];
      TextsOfLex(rest);
      assert s == TextOf(t) + rest;
      assert Lex(s)[1..] == Lex(rest);
    }
  }

  /** What may stand before `next` and still be read as itself. */
  predicate Stands(t: Token, next: seq<Token>) {
    match t
    case Literal(text) =>
      && text != [] && IsQuote(text[0]) && 1 + LiteralRest(text[1..], text[0]) == |text|
      && (next == [] || EndsLiteral(text[1..], text[0]))
    case Other(c) => !IsQuote(c) && (c == '/' ==> next == [] || Mark(next[0]) !in {'/', '*'})
    case _ => false
  }

  /** The literal ends at a quote or line break rather than at the end of the text. */
  predicate EndsLiteral(s: string, quote: char) {
    s != [] &&
    if s[0] == quote || s[0] == '\n' then |s| == 1
    else if s[0] != '\\' then EndsLiteral(s[1..], quote)
    else |s| > 1 && EndsLiteral(s[2..], quote)
  }

  ghost predicate Settled(tokens: seq<Token>)
    decreases |tokens|
  {
    tokens == [] || (Stands(tokens[0], tokens[1..]) && Settled(tokens[1..]))
  }

  lemma {:induction false} LiteralIsClosed(s: string, quote: char, rest: string)
    requires EndsLiteral(s, quote)
    ensures LiteralRest(s + rest, quote) == |s|
  {
    if s[0] == quote || s[0] == '\n' {
    } else if s[0] != '\\' {
      assert (s + rest)[1..] == s[1..] + rest;
      LiteralIsClosed(s[1..], quote, rest);
    } else {
      assert (s + rest)[2..] == s[2..] + rest;
      LiteralIsClosed(s[2..], quote, rest);
    }
  }

  lemma FirstText(tokens: seq<Token>)
    requires Settled(tokens) && tokens != []
    ensures Texts(tokens) != [] && Texts(tokens)[0] == Mark(tokens[0])
  {}

  /** Settled tokens are read back from their text. */
  lemma {:induction false} LexOfTexts(tokens: seq<Token>)
    requires Settled(tokens)
    ensures Lex(Texts(tokens)) == tokens
    decreases |tokens|
  {
    if tokens != [] {
      var t, rest := tokens[0], tokens[1..];
      LexOfTexts(rest);
      NextOfText(t, rest);
      assert Texts(tokens)[|TextOf(t)|..] == Texts(rest);
    }
  }

  lemma {:induction false} NextOfText(t: Token, rest: seq<Token>)
    requires Stands(t, rest) && Settled(rest)
    ensures Next(TextOf(t) + Texts(rest)) == t
  {
    var s := TextOf(t) + Texts(rest);
    if t.Literal? {
      assert s[1..] == t.text[1..] + Texts(rest);
      if rest == [] {
        assert s == t.text;
      } else {
        LiteralIsClosed(t.text[1..], t.text[0], Texts(rest));
      }
      assert s[..|t.text|] == t.text;
    } else {
      if rest != [] {
        FirstText(rest);
        assert s[1] == Mark(rest[0]);
      }
    }
  }
}
