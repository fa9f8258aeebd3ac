/** What the scanner's tokens are, said of the text they are cut from, and which commas trail. */
module JsonExtensionsReading {
  import opened Collections
  import opened JsText
  import opened JsonExtensions
  import opened JsonExtensionsTheorems

  // --- Where a literal ends ---------------------------------------------------

  /** How many backslashes stand right before a place. */
  ghost function Backslashes(s: string, p: nat): nat
    requires p <= |s|
  {
    if p == 0 || s[p - 1] != '\\' then 0 else 1 + Backslashes(s, p - 1)
  }

  /** The quote or a line break, with no backslash that escapes it. */
  ghost predicate Closes(s: string, quote: char, p: nat) {
    p < |s| && (s[p] == quote || s[p] == '\n') && Backslashes(s, p) % 2 == 0
  }

  /** Behind its opening quote a literal takes all up to the first such place, or all there is. */
  ghost predicate IsRest(s: string, quote: char, n: nat) {
    && n <= |s| && (forall p: nat :: p + 1 < n ==> !Closes(s, quote, p))
    && (if n > 0 && Closes(s, quote, n - 1) then true else n == |s| && forall p: nat :: !Closes(s, quote, p))
  }

  lemma {:induction false} BackslashesBehind(s: string, k: nat, p: nat)
    requires k <= p <= |s|
    ensures Backslashes(s, p) == Backslashes(s[k..], p - k)
      + if Backslashes(s[k..], p - k) == p - k then Backslashes(s, k) else 0
    ensures Backslashes(s[k..], p - k) <= p - k
  {
    if p > k {
      BackslashesBehind(s, k, p - 1);
      assert s[k..][p - k - 1] == s[p - 1];
    }
  }

  /** Past an even number of backslashes, what closes the text behind them closes the whole. */
  lemma ClosesBehind(s: string, quote: char, k: nat, p: nat)
    requires k <= |s| && Backslashes(s, k) % 2 == 0
    ensures Closes(s[k..], quote, p) <==> Closes(s, quote, p + k)
  {
    hide Backslashes;
    if p + k < |s| {
      BackslashesBehind(s, k, p + k);
      assert s[k..][p] == s[p + k];
    }
  }

  lemma {:induction false} RestIsRest(s: string, quote: char)
    requires quote != '\\'
    ensures IsRest(s, quote, LiteralRest(s, quote))
  {
    if s != [] && s[0] != quote && s[0] != '\n' {
      if s[0] != '\\' || |s| > 1 {
        var k := if s[0] == '\\' then 2 else 1;
        assert Backslashes(s, 1) == if s[0] == '\\' then 1 else 0;
        assert k == 2 ==> Backslashes(s, 2) == if s[1] == '\\' then 2 else 0;
        RestIsRest(s[k..], quote);
        RestBehind(s, quote, k, LiteralRest(s[k..], quote));
      }
    }
  }

  lemma {:induction false} RestBehind(s: string, quote: char, k: nat, n: nat)
    requires k <= |s| && Backslashes(s, k) % 2 == 0 && IsRest(s[k..], quote, n)
    requires forall p: nat :: p < k ==> !Closes(s, quote, p)
    ensures IsRest(s, quote, n + k)
  {
    hide Closes;
    forall p: nat | p >= k ensures Closes(s, quote, p) <==> Closes(s[k..], quote, p - k) {
      ClosesBehind(s, quote, k, p - k);
    }
  }

  lemma RestIsUnique(s: string, quote: char, m: nat, n: nat)
    requires IsRest(s, quote, m) && IsRest(s, quote, n)
    ensures m == n
  {
    hide Closes;
  }

  // --- What is taken at once --------------------------------------------------

  /** The token stands in front of the text, and is all that belongs to it. */
  ghost predicate IsPiece(t: Token, s: string) {
    s != "" &&
    match t
    case Literal(text) =>
      (s[0] == '"' || s[0] == '\'') && text != "" && text <= s && IsRest(s[1..], s[0], |text| - 1)
    case Line(text) =>
      && "//" <= s && 0 < |text| && text <= s && '\n' !in text[..|text| - 1]
      && (text == s || text[|text| - 1] == '\n')
    case Block(text) =>
      && "/*" <= s && |text| >= 4 && text <= s && EndsComment(s[2..], |text| - 4)
      && forall i: nat :: i < |text| - 4 ==> !EndsComment(s[2..], i)
    case Open(text) => "/*" <= s && text == s && forall i: nat :: !EndsComment(s[2..], i)
    case Other(c) => c == s[0] && c != '"' && c != '\'' && !("//" <= s) && !("/*" <= s)
  }

  lemma {:induction false} FirstCommentEnd(s: string)
    requires AfterCommentEnd(s).Some?
    ensures var n := AfterCommentEnd(s).value;
      EndsComment(s, n - 2) && forall i: nat :: i < n - 2 ==> !EndsComment(s, i)
  {
    if !(s[0] == '*' && s[1] == '/') {
      FirstCommentEnd(s[1..]);
      assert forall i: nat :: EndsComment(s[1..], i) <==> EndsComment(s, i + 1);
      var n := AfterCommentEnd(s).value;
      assert EndsComment(s[1..], n - 3);
      forall i: nat | i < n - 2 ensures !EndsComment(s, i) {
        if i > 0 {
          assert !EndsComment(s[1..], i - 1);
          assert EndsComment(s[1..], i - 1) <==> EndsComment(s, i - 1 + 1);
        }
      }
    }
  }

  lemma {:induction false} NextIsPiece(s: string)
    requires s != ""
    ensures IsPiece(Next(s), s)
  {
    hide AfterCommentEnd, LineLength, LiteralRest, IsRest, EndsComment;
    if IsQuote(s[0]) {
      RestIsRest(s[1..], s[0]);
    } else if "//" <= s {
      NextIsLine(s);
    } else if "/*" <= s {
      NextIsComment(s);
    }
  }

  lemma NextIsLine(s: string)
    requires "//" <= s
    ensures Next(s).Line? && IsPiece(Next(s), s)
  {
    hide LineLength;
    var n := LineLength(s);
    assert s[0] == '/';
    if n < |s| {
      assert s[..n + 1][..n] == s[..n];
    } else {
      assert s[..n] == s;
    }
  }

  lemma {:induction false} NextIsComment(s: string)
    requires "/*" <= s
    ensures (Next(s).Block? || Next(s).Open?) && IsPiece(Next(s), s)
  {
    hide AfterCommentEnd, EndsComment;
    assert s[0] == '/' && s[1] == '*';
    NoCommentEnd(s[2..]);
    if AfterCommentEnd(s[2..]).Some? { FirstCommentEnd(s[2..]); }
  }

  /** Only one token stands in front of a text. */
  lemma {:induction false} PieceIsUnique(s: string, t: Token, u: Token)
    requires IsPiece(t, s) && IsPiece(u, s)
    ensures t == u
  {
    hide IsRest, EndsComment;
    SameKind(s, t, u);
    match t
    case Literal(text) => RestIsUnique(s[1..], s[0], |text| - 1, |u.text| - 1);
    case Line(_) => LineIsUnique(s, t.text, u.text);
    case Block(_) =>
    case _ =>
  }

  lemma SameKind(s: string, t: Token, u: Token)
    requires IsPiece(t, s) && IsPiece(u, s)
    ensures t.Literal? <==> u.Literal?
    ensures t.Line? <==> u.Line?
    ensures t.Block? <==> u.Block?
    ensures t.Other? <==> u.Other?
  {
    hide IsRest, EndsComment;
    assert "//" <= s ==> s[0] == '/' && s[1] == '/';
    assert "/*" <= s ==> s[0] == '/' && s[1] == '*';
  }

  lemma LineIsUnique(s: string, a: string, b: string)
    requires a != "" && a <= s && '\n' !in a[..|a| - 1] && (a == s || a[|a| - 1] == '\n')
    requires b != "" && b <= s && '\n' !in b[..|b| - 1] && (b == s || b[|b| - 1] == '\n')
    ensures a == b
  {
    assert forall i :: 0 <= i < |a| - 1 ==> a[..|a| - 1][i] == s[i];
    assert forall i :: 0 <= i < |b| - 1 ==> b[..|b| - 1][i] == s[i];
  }

  /**
    The scanner takes at once: a literal, from a quote of either kind to the first such
    quote or line break that no backslash escapes; a line comment with its line break; a
    block comment to the first end of one; and otherwise a character.
   */
  lemma {:induction false} NextExactlyWhen(s: string, t: Token)
    requires s != ""
    ensures Next(s) == t <==> IsPiece(t, s)
  {
    hide Next, IsPiece;
    NextIsPiece(s);
    if IsPiece(t, s) { PieceIsUnique(s, Next(s), t); }
  }

  /** Pieces one behind another, to the end of the text. */
  ghost predicate Pieces(tokens: seq<Token>, s: string) {
    if tokens == [] then s == ""
    else IsPiece(tokens[0], s) && TextOf(tokens[0]) <= s && Pieces(tokens[1..], s[|TextOf(tokens[0])|..])
  }

  /** A text is read as the pieces it consists of, and can be read in no other way. */
  lemma {:induction false} LexExactlyWhen(s: string, tokens: seq<Token>)
    ensures Lex(s) == tokens <==> Pieces(tokens, s)
    decreases |s|
  {
    hide Next, IsPiece;
    if s != "" {
      var t := Next(s);
      NextIsPiece(s);
      LexStep(s);
      if tokens != [] {
        NextExactlyWhen(s, tokens[0]);
        LexExactlyWhen(s[|TextOf(t)|..], tokens[1..]);
        assert tokens == [tokens[0]] + tokens[1..];
      }
    } else if tokens != [] {
      NothingInFront(tokens[0]);
    }
  }

  lemma NothingInFront(t: Token)
    ensures !IsPiece(t, "")
  {}

  // --- Which commas trail -----------------------------------------------------

  ghost predicate OnlySpaceBetween(tokens: seq<Token>, i: nat, j: nat)
    requires i < |tokens| && j <= |tokens|
  {
    forall k :: i < k < j ==> tokens[k].Other? && IsSpace(tokens[k].c)
  }

  /** Up to white space, a closing bracket comes next. */
  ghost predicate CloserNext(tokens: seq<Token>, i: nat)
    requires i < |tokens|
  {
    exists j :: i < j < |tokens| && OnlySpaceBetween(tokens, i, j) && tokens[j] in {Other('}'), Other(']')}
  }

  /** Up to white space, something comes before that is no opening bracket and no comma. */
  ghost predicate ElementBefore(tokens: seq<Token>, i: nat)
    requires i < |tokens|
  {
    exists k :: 0 <= k < i && OnlySpaceBetween(tokens, k, i) && !IsBlank(tokens[k])
      && tokens[k] !in {Other('{'), Other('['), Other(',')}
  }

  lemma {:induction false} CloserIsNext(tokens: seq<Token>, i: nat)
    requires i < |tokens|
    ensures CloserFollows(tokens[i + 1..]) <==> CloserNext(tokens, i)
    decreases |tokens| - i
  {
    if i + 1 < |tokens| {
      var next := tokens[i + 1];
      assert tokens[i + 1..][0] == next && tokens[i + 1..][1..] == tokens[i + 2..];
      if IsBlank(next) {
        CloserIsNext(tokens, i + 1);
        if CloserNext(tokens, i) {
          var j :| i < j < |tokens| && OnlySpaceBetween(tokens, i, j) && tokens[j] in {Other('}'), Other(']')};
          assert OnlySpaceBetween(tokens, i + 1, j);
        }
        if CloserNext(tokens, i + 1) {
          var j :| i + 1 < j < |tokens| && OnlySpaceBetween(tokens, i + 1, j) && tokens[j] in {Other('}'), Other(']')};
          assert OnlySpaceBetween(tokens, i, j);
        }
      } else {
        assert OnlySpaceBetween(tokens, i, i + 1);
      }
    }
  }

  ghost predicate QuotesFirst(tokens: seq<Token>) {
    forall t :: t in tokens && !t.Other? ==> t.text != "" && t.text[0] !in {'{', '[', ','}
  }

  lemma {:induction false} ElementIsBefore(tokens: seq<Token>, i: nat)
    requires i < |tokens| && QuotesFirst(tokens)
    ensures TrailsElement(LastMark(tokens[..i])) <==> ElementBefore(tokens, i)
  {
    if i > 0 {
      var last := tokens[i - 1];
      assert tokens[..i][i - 1] == last && tokens[..i][..i - 1] == tokens[..i - 1];
      if IsBlank(last) {
        ElementIsBefore(tokens, i - 1);
        if ElementBefore(tokens, i) {
          var k :| 0 <= k < i && OnlySpaceBetween(tokens, k, i) && !IsBlank(tokens[k])
            && tokens[k] !in {Other('{'), Other('['), Other(',')};
          assert OnlySpaceBetween(tokens, k, i - 1);
        }
        if ElementBefore(tokens, i - 1) {
          var k :| 0 <= k < i - 1 && OnlySpaceBetween(tokens, k, i - 1) && !IsBlank(tokens[k])
            && tokens[k] !in {Other('{'), Other('['), Other(',')};
          assert OnlySpaceBetween(tokens, k, i);
        }
      } else {
        assert OnlySpaceBetween(tokens, i - 1, i);
        assert last in tokens;
      }
    }
  }

  /** A comma trails exactly when, white space aside, an element stands before it and a closing bracket behind. */
  lemma {:induction false} TrailingExactlyWhen(tokens: seq<Token>, i: nat)
    requires i < |tokens| && QuotesFirst(tokens)
    ensures Trailing(tokens, i) <==>
      tokens[i] == Other(',') && ElementBefore(tokens, i) && CloserNext(tokens, i)
  {
    hide CloserFollows, LastMark, TrailsElement, ElementBefore, CloserNext;
    CloserIsNext(tokens, i);
    ElementIsBefore(tokens, i);
  }

  /** The tokens of the first pass are such that this holds of them. */
  lemma {:induction false} ScannedQuotesFirst(s: string)
    requires NoOpen(Lex(s))
    ensures QuotesFirst(PlainTokens(Lex(s)))
  {
    PlainIsSettled(s);
    SettledQuotesFirst(PlainTokens(Lex(s)));
  }

  lemma {:induction false} SettledQuotesFirst(tokens: seq<Token>)
    requires Settled(tokens)
    ensures QuotesFirst(tokens)
    decreases |tokens|
  {
    if tokens != [] {
      SettledQuotesFirst(tokens[1..]);
      assert tokens == [tokens[0]] + tokens[1..];
    }
  }

  // --- Lines ------------------------------------------------------------------

  ghost function LineBreaks(s: string): nat {
    multiset(s)['\n']
  }

  /** The text ends in a line comment that no line break follows. */
  ghost predicate EndsInComment(tokens: seq<Token>) {
    tokens != [] && tokens[|tokens| - 1].Line? && LineBreaks(tokens[|tokens| - 1].text) == 0
  }

  lemma BreaksAdd(a: string, b: string)
    ensures LineBreaks(a + b) == LineBreaks(a) + LineBreaks(b)
  {}

  lemma {:induction false} BreaksOfBlanked(s: string)
    ensures LineBreaks(Blanked(s)) == LineBreaks(s)
  {
    hide LineBreaks;
    if s != "" {
      BreaksOfBlanked(s[1..]);
      var c: string := if s[0] == '\n' then "\n" else " ";
      assert Blanked(s) == c + Blanked(s[1..]) && s == s[..1] + s[1..];
      BreaksAdd(c, Blanked(s[1..]));
      BreaksAdd(s[..1], s[1..]);
      BreakOfOne(s[..1]);
      BreakOfOne(c);
    }
  }

  lemma BreakOfOne(s: string)
    requires |s| == 1
    ensures LineBreaks(s) == if s[0] == '\n' then 1 else 0
  {
    assert s == [s[0]];
  }

  lemma BreaksOfLine(text: string)
    requires text != "" && '\n' !in text[..|text| - 1]
    ensures LineBreaks(text) == if text[|text| - 1] == '\n' then 1 else 0
  {
    assert text == text[..|text| - 1] + [text[|text| - 1]];
  }

  /** What the first pass makes of one token has the token's line breaks, or the one that ends a line comment. */
  lemma {:induction false} BreaksOfPlainToken(s: string)
    requires s != "" && !Next(s).Open?
    ensures var t := Next(s);
      LineBreaks(Texts(PlainTokens([t]))) == LineBreaks(TextOf(t)) + if EndsInComment([t]) then 1 else 0
    ensures EndsInComment([Next(s)]) ==> TextOf(Next(s)) == s
  {
    hide Next, IsRest, EndsComment;
    NextIsPiece(s);
    var t := Next(s);
    assert PlainTokens([t][1..]) == [];
    match t
    case Line(text) =>
      BreaksOfLine(text);
      BreakOfOne("\n");
      assert PlainTokens([t]) == [Other('\n')] && Texts([Other('\n')]) == "\n";
    case Block(text) =>
      OthersText(Blanked(text));
      BreaksOfBlanked(text);
      assert PlainTokens([t]) == Others(Blanked(text));
    case Literal(_) => assert PlainTokens([t]) == [t] && Texts([t]) == TextOf(t);
    case Other(_) => assert PlainTokens([t]) == [t] && Texts([t]) == TextOf(t);
    case Open(_) =>
  }

  /** A comment leaves only spaces and line breaks, and at least one; any other piece stays as it is. */
  lemma CommentsAreBlanked(t: Token)
    ensures var plain := PlainTokens([t]);
      if t.Line? || t.Block? then
        (TextOf(t) != "" ==> plain != []) && forall u :: u in plain ==> u == Other(' ') || u == Other('\n')
      else plain == [t]
  {
    assert PlainTokens([t][1..]) == [];
  }

  lemma PlainTokensStep(t: Token, rest: seq<Token>)
    ensures PlainTokens([t] + rest) == PlainTokens([t]) + PlainTokens(rest)
  {
    assert ([t] + rest)[1..] == rest && [t][1..] == [];
  }

  lemma {:induction false} BreaksOfPlain(s: string)
    requires NoOpen(Lex(s))
    ensures LineBreaks(Texts(PlainTokens(Lex(s)))) == LineBreaks(s) + if EndsInComment(Lex(s)) then 1 else 0
    decreases |s|
  {
    hide LineBreaks, Next, Texts, PlainTokens;
    if s != "" {
      var t := Next(s);
      var rest := s[|TextOf(t)|..];
      LexStep(s);
      assert Lex(s)[0] in Lex(s) && forall u :: u in Lex(rest) ==> u in Lex(s);
      BreaksOfPlain(rest);
      BreaksOfPlainToken(s);
      PlainTokensStep(t, Lex(rest));
      TextsConcat(PlainTokens([t]), PlainTokens(Lex(rest)));
      BreaksAdd(Texts(PlainTokens([t])), Texts(PlainTokens(Lex(rest))));
      assert s == TextOf(t) + rest;
      BreaksAdd(TextOf(t), rest);
      if rest == "" {
        assert Lex(s) == [t];
      }
    } else {
      NoBreaks();
    }
  }

  lemma NoBreaks()
    ensures Texts(PlainTokens([])) == "" && LineBreaks("") == 0
  {}

  lemma {:induction false} BreaksOfDrop(tokens: seq<Token>, last: Option<char>)
    ensures LineBreaks(Texts(Drop(tokens, last))) == LineBreaks(Texts(tokens))
    decreases |tokens|
  {
    hide LineBreaks, CloserFollows, TrailsElement, Mark, IsBlank;
    if tokens != [] {
      var t, rest := tokens[0], tokens[1..];
      var next := if IsBlank(t) then last else Some(Mark(t));
      BreaksOfDrop(rest, last);
      BreaksOfDrop(rest, next);
      BreaksAdd(TextOf(t), Texts(rest));
      BreaksAdd(TextOf(t), Texts(Drop(rest, next)));
      BreakOfOne(",");
      assert ([t] + Drop(rest, next))[1..] == Drop(rest, next);
    }
  }

  /** No line is lost or added, but for the line break put behind a comment that ends the text. */
  lemma {:induction false} LinesStay(text: string)
    requires Strip(text).Some?
    ensures var source := StripBOM(text);
      LineBreaks(Strip(text).value) == LineBreaks(source) + if EndsInComment(Lex(source)) then 1 else 0
  {
    hide LineBreaks, Lex, Texts, Drop, PlainTokens, EndsInComment;
    var source := StripBOM(text);
    assert NoOpen(Lex(source));
    BreaksOfPlain(source);
    BreaksOfDrop(PlainTokens(Lex(source)), None);
  }
}
