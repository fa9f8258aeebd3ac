/** What reducing JSON with extensions to plain JSON keeps, drops and refuses. */
module JsonExtensionsTheorems {
  import opened Collections
  import opened JsText
  import opened JsonExtensions

  // --- The text of the first pass reads as its tokens --------------------------

  lemma {:induction false} LiteralEnds(s: string, quote: char)
    ensures var n := LiteralRest(s, quote);
      LiteralRest(s[..n], quote) == n && (n < |s| ==> EndsLiteral(s[..n], quote))
  {
    var n := LiteralRest(s, quote);
    if s == [] || s[0] == quote || s[0] == '\n' {
    } else if s[0] != '\\' {
      LiteralEnds(s[1..], quote);
      assert s[..n][1..] == s[1..][..n - 1];
    } else if |s| > 1 {
      LiteralEnds(s[2..], quote);
      assert s[..n][2..] == s[2..][..n - 2];
    }
  }

  lemma PlainHead(s: string)
    requires s != [] && !Next(s).Open?
    ensures PlainTokens(Lex(s)) != []
    ensures s[0] !in {'/', '*'} ==> Mark(PlainTokens(Lex(s))[0]) !in {'/', '*'}
  {}

  lemma {:induction false} SettledAppend(a: seq<Token>, b: seq<Token>)
    requires Settled(b)
    requires forall i :: 0 <= i < |a| ==> a[i].Other? && !IsQuote(a[i].c) && a[i].c != '/'
    ensures Settled(a + b)
    decreases |a|
  {
    if a == [] {
      assert a + b == b;
    } else {
      assert (a + b)[1..] == a[1..] + b;
      SettledAppend(a[1..], b);
    }
  }

  ghost predicate NoOpen(tokens: seq<Token>) {
    forall t :: t in tokens ==> !t.Open?
  }

  lemma {:induction false} PlainIsSettled(s: string)
    requires NoOpen(Lex(s))
    ensures Settled(PlainTokens(Lex(s)))
    decreases |s|
  {
    if s != [] {
      var t := Next(s);
      var rest := s[|TextOf(t)|..];
      assert Lex(s) == [t] + Lex(rest);
      assert Lex(s)[0] == t && Lex(s)[1..] == Lex(rest);
      PlainIsSettled(rest);
      if rest != [] {
        assert Lex(rest)[0] == Next(rest);
        PlainHead(rest);
      }
      PlainStands(s);
    }
  }

  /** A literal cut from the text stands before whatever follows it there. */
  lemma {:induction false} LiteralStands(s: string, next: seq<Token>)
    requires s != [] && IsQuote(s[0]) && (|TextOf(Next(s))| == |s| ==> next == [])
    ensures Stands(Next(s), next)
  {
    var text := Next(s).text;
    LiteralEnds(s[1..], s[0]);
    assert text[1..] == s[1..][..|text| - 1];
  }

  lemma OtherStands(s: string, next: seq<Token>)
    requires s != [] && Next(s).Other?
    requires |s| == 1 ==> next == []
    requires |s| > 1 && next != [] && s[1] !in {'/', '*'} ==> Mark(next[0]) !in {'/', '*'}
    ensures Stands(Next(s), next)
  {}

  lemma {:induction false} PlainStands(s: string)
    requires s != [] && !Next(s).Open?
    requires var rest := s[|TextOf(Next(s))|..];
      && Settled(PlainTokens(Lex(rest)))
      && (rest != [] && rest[0] !in {'/', '*'} && PlainTokens(Lex(rest)) != [] ==>
           Mark(PlainTokens(Lex(rest))[0]) !in {'/', '*'})
    ensures Settled(PlainTokens(Lex(s)))
  {
    hide Stands, Next, Mark, LiteralRest;
    var t := Next(s);
    var rest := s[|TextOf(t)|..];
    var plain := PlainTokens(Lex(rest));
    LexStep(s);
    assert Lex(s)[0] == t && Lex(s)[1..] == Lex(rest);
    NextKinds(s);
    match t
    case Literal(text) =>
      LiteralStands(s, plain);
      assert ([t] + plain)[1..] == plain;
    case Line(_) => SettledAppend([Other('\n')], plain);
    case Block(text) => SettledAppend(Others(Blanked(text)), plain);
    case Other(c) =>
      OtherStands(s, plain);
      assert ([t] + plain)[1..] == plain;
  }

  lemma NextKinds(s: string)
    requires s != []
    ensures Next(s).Literal? <==> IsQuote(s[0])
  {}

  lemma {:induction false} DropIsSettled(tokens: seq<Token>, last: Option<char>)
    requires Settled(tokens)
    ensures Settled(Drop(tokens, last))
    decreases |tokens|
  {
    if tokens != [] {
      var t, rest := tokens[0], tokens[1..];
      if t == Other(',') && CloserFollows(rest) && TrailsElement(last) {
        DropIsSettled(rest, last);
      } else {
        var next := if IsBlank(t) then last else Some(Mark(t));
        DropIsSettled(rest, next);
        DropHead(rest, next);
        assert Drop(tokens, last)[1..] == Drop(rest, next);
      }
    }
  }

  /** The first token left is the first one, or white space or a bracket behind a dropped comma. */
  lemma DropHead(tokens: seq<Token>, last: Option<char>)
    ensures var d := Drop(tokens, last);
      d != [] ==> tokens != [] && (d[0] == tokens[0] || IsBlank(d[0]) || d[0] == Other('}') || d[0] == Other(']'))
  {}

  /** What the scanner returns reads back as exactly the tokens it kept. */
  lemma {:induction false} OutputTokens(text: string)
    requires Strip(text).Some?
    ensures var kept := Drop(PlainTokens(Lex(StripBOM(text))), None);
      Settled(kept) && Lex(Strip(text).value) == kept
  {
    var source := StripBOM(text);
    assert NoOpen(Lex(source));
    PlainIsSettled(source);
    DropIsSettled(PlainTokens(Lex(source)), None);
    LexOfTexts(Drop(PlainTokens(Lex(source)), None));
  }

  // --- Strings ----------------------------------------------------------------

  function Literals(tokens: seq<Token>): seq<string> {
    if tokens == [] then []
    else (if tokens[0].Literal? then [tokens[0].text] else []) + Literals(tokens[1..])
  }

  lemma {:induction false} LiteralsAfterOthers(a: seq<Token>, b: seq<Token>)
    requires forall i :: 0 <= i < |a| ==> a[i].Other?
    ensures Literals(a + b) == Literals(b)
    decreases |a|
  {
    if a == [] {
      assert a + b == b;
    } else {
      assert (a + b)[1..] == a[1..] + b;
      LiteralsAfterOthers(a[1..], b);
    }
  }

  lemma {:induction false} PlainKeepsLiterals(tokens: seq<Token>)
    ensures Literals(PlainTokens(tokens)) == Literals(tokens)
    decreases |tokens|
  {
    if tokens != [] {
      PlainKeepsLiterals(tokens[1..]);
      var rest := PlainTokens(tokens[1..]);
      match tokens[0]
      case Line(_) => LiteralsAfterOthers([Other('\n')], rest);
      case Block(text) => LiteralsAfterOthers(Others(Blanked(text)), rest);
      case t => assert ([t] + rest)[1..] == rest;
    }
  }

  lemma {:induction false} DropKeepsLiterals(tokens: seq<Token>, last: Option<char>)
    ensures Literals(Drop(tokens, last)) == Literals(tokens)
    decreases |tokens|
  {
    if tokens != [] {
      var t, rest := tokens[0], tokens[1..];
      var next := if IsBlank(t) then last else Some(Mark(t));
      DropKeepsLiterals(rest, last);
      DropKeepsLiterals(rest, next);
      assert ([t] + Drop(rest, next))[1..] == Drop(rest, next);
    }
  }

  /** Every string literal is copied verbatim, and nothing else becomes one. */
  lemma {:induction false} StringsAreVerbatim(text: string)
    requires Strip(text).Some?
    ensures Literals(Lex(Strip(text).value)) == Literals(Lex(StripBOM(text)))
  {
    OutputTokens(text);
    PlainKeepsLiterals(Lex(StripBOM(text)));
    DropKeepsLiterals(PlainTokens(Lex(StripBOM(text))), None);
  }

  // --- Commas -----------------------------------------------------------------

  /** The last significant character of the tokens. */
  function LastMark(tokens: seq<Token>): Option<char> {
    if tokens == [] then None
    else
      var t := tokens[|tokens| - 1];
      if IsBlank(t) then LastMark(tokens[..|tokens| - 1]) else Some(Mark(t))
  }

  /** A comma after an element and before a closing bracket, white space aside. */
  predicate Trailing(tokens: seq<Token>, i: nat)
    requires i < |tokens|
  {
    tokens[i] == Other(',') && CloserFollows(tokens[i + 1..]) && TrailsElement(LastMark(tokens[..i]))
  }

  /** The first `n` tokens without the trailing commas among them. */
  function Kept(tokens: seq<Token>, n: nat): seq<Token>
    requires n <= |tokens|
  {
    if n == 0 then [] else Kept(tokens, n - 1) + (if Trailing(tokens, n - 1) then [] else [tokens[n - 1]])
  }

  /** One token: dropping it agrees with where it stands, and the scanner's memory stays true. */
  lemma {:induction false} DropStep(tokens: seq<Token>, i: nat, last: Option<char>)
    requires i < |tokens|
    requires last == LastMark(tokens[..i]) || CloserFollows(tokens[i..])
    ensures var t := tokens[i];
      var next := if IsBlank(t) then last else Some(Mark(t));
      && Drop(tokens[i..], last) ==
           (if Trailing(tokens, i) then Drop(tokens[i + 1..], last) else [t] + Drop(tokens[i + 1..], next))
      && (Trailing(tokens, i) ==> CloserFollows(tokens[i + 1..]))
      && (!Trailing(tokens, i) ==> next == LastMark(tokens[..i + 1]) || CloserFollows(tokens[i + 1..]))
  {
    hide Mark, TrailsElement;
    assert tokens[i..][0] == tokens[i] && tokens[i..][1..] == tokens[i + 1..];
    assert tokens[..i + 1][..i] == tokens[..i] && tokens[..i + 1][i] == tokens[i];
    assert tokens[i] == Other(',') ==> !CloserFollows(tokens[i..]);
  }

  lemma {:induction false} DropFrom(tokens: seq<Token>, i: nat, last: Option<char>)
    requires i <= |tokens|
    requires last == LastMark(tokens[..i]) || CloserFollows(tokens[i..])
    ensures Kept(tokens, |tokens|) == Kept(tokens, i) + Drop(tokens[i..], last)
    decreases |tokens| - i
  {
    if i < |tokens| {
      var t := tokens[i];
      DropStep(tokens, i, last);
      hide Drop, CloserFollows, LastMark, Trailing, Mark, TrailsElement;
      if Trailing(tokens, i) {
        DropFrom(tokens, i + 1, last);
      } else {
        DropFrom(tokens, i + 1, if IsBlank(t) then last else Some(Mark(t)));
      }
    }
  }

  /**
    Exactly the trailing commas are dropped, as they stand in the text without
    comments. A comma behind an opening bracket or another comma stays.
   */
  lemma {:induction false} DropsTheTrailingCommas(tokens: seq<Token>)
    ensures Drop(tokens, None) == Kept(tokens, |tokens|)
  {
    assert tokens[0..] == tokens && tokens[..0] == [];
    DropFrom(tokens, 0, None);
  }

  // --- Identity ---------------------------------------------------------------

  ghost predicate HasComment(tokens: seq<Token>) {
    exists t :: t in tokens && (t.Line? || t.Block? || t.Open?)
  }

  ghost predicate HasTrailing(tokens: seq<Token>) {
    exists i :: 0 <= i < |tokens| && Trailing(tokens, i)
  }

  lemma {:induction false} PlainOfPlain(tokens: seq<Token>)
    requires !HasComment(tokens)
    ensures PlainTokens(tokens) == tokens
    decreases |tokens|
  {
    if tokens != [] {
      assert tokens[0] in tokens;
      assert forall t :: t in tokens[1..] ==> t in tokens;
      PlainOfPlain(tokens[1..]);
    }
  }

  lemma {:induction false} KeptLength(tokens: seq<Token>, n: nat)
    requires n <= |tokens|
    ensures |Kept(tokens, n)| <= n
    ensures |Kept(tokens, n)| == n <==> forall i :: 0 <= i < n ==> !Trailing(tokens, i)
    ensures |Kept(tokens, n)| == n ==> Kept(tokens, n) == tokens[..n]
  {
    hide Trailing, CloserFollows, LastMark;
    if n > 0 {
      KeptLength(tokens, n - 1);
      assert tokens[..n] == tokens[..n - 1] + [tokens[n - 1]];
      if forall i :: 0 <= i < n ==> !Trailing(tokens, i) {
        assert forall i :: 0 <= i < n - 1 ==> !Trailing(tokens, i);
      }
    }
  }

  lemma {:induction false} SettledHasNoComment(tokens: seq<Token>)
    requires Settled(tokens)
    ensures !HasComment(tokens)
    decreases |tokens|
  {
    if tokens != [] {
      SettledHasNoComment(tokens[1..]);
      assert tokens == [tokens[0]] + tokens[1..];
    }
  }

  lemma {:induction false} TextsConcat(a: seq<Token>, b: seq<Token>)
    ensures Texts(a + b) == Texts(a) + Texts(b)
    decreases |a|
  {
    if a == [] {
      assert a + b == b;
    } else {
      assert (a + b)[1..] == a[1..] + b;
      TextsConcat(a[1..], b);
    }
  }

  lemma {:induction false} OthersText(s: string)
    ensures Texts(Others(s)) == s
  {
    if s != [] {
      assert Others(s)[1..] == Others(s[1..]);
      OthersText(s[1..]);
    }
  }

  lemma {:induction false} PlainIsNoLonger(tokens: seq<Token>)
    requires forall t :: t in tokens ==> TextOf(t) != []
    ensures |Texts(PlainTokens(tokens))| <= |Texts(tokens)|
    decreases |tokens|
  {
    if tokens != [] {
      var t, rest := tokens[0], PlainTokens(tokens[1..]);
      assert t in tokens && forall x :: x in tokens[1..] ==> x in tokens;
      PlainIsNoLonger(tokens[1..]);
      match t
      case Line(_) => TextsConcat([Other('\n')], rest);
      case Block(text) =>
        TextsConcat(Others(Blanked(text)), rest);
        OthersText(Blanked(text));
      case _ => assert ([t] + rest)[1..] == rest;
    }
  }

  lemma {:induction false} DropIsNoLonger(tokens: seq<Token>, last: Option<char>)
    ensures |Texts(Drop(tokens, last))| <= |Texts(tokens)|
    decreases |tokens|
  {
    if tokens != [] {
      var t, rest := tokens[0], tokens[1..];
      var next := if IsBlank(t) then last else Some(Mark(t));
      DropIsNoLonger(rest, last);
      DropIsNoLonger(rest, next);
      assert ([t] + Drop(rest, next))[1..] == Drop(rest, next);
    }
  }

  lemma {:induction false} LexTextsNonEmpty(s: string)
    ensures forall t :: t in Lex(s) ==> TextOf(t) != []
    decreases |s|
  {
    if s != [] {
      LexTextsNonEmpty(s[|TextOf(Next(s))|..]);
    }
  }

  lemma {:induction false} OutputIsNoLonger(text: string)
    requires Strip(text).Some?
    ensures |Strip(text).value| <= |StripBOM(text)|
  {
    var tokens := Lex(StripBOM(text));
    LexTextsNonEmpty(StripBOM(text));
    PlainIsNoLonger(tokens);
    DropIsNoLonger(PlainTokens(tokens), None);
    TextsOfLex(StripBOM(text));
  }

  predicate LeadingBOM(text: string) {
    text != [] && text[0] == '\U{FEFF}'
  }

  /** Text passes unchanged exactly when it has no byte-order mark, no comment and no trailing comma. */
  lemma {:induction false} UnchangedExactlyWhenPlain(text: string)
    ensures Strip(text) == Some(text) <==>
      !LeadingBOM(text) && !HasComment(Lex(text)) && !HasTrailing(Lex(text))
  {
    var tokens := Lex(text);
    TextsOfLex(text);
    DropsTheTrailingCommas(tokens);
    KeptLength(tokens, |tokens|);
    assert tokens[..|tokens|] == tokens;
    hide Drop, Lex, Texts, Kept, Trailing, PlainTokens, Settled;
    if !LeadingBOM(text) && !HasComment(tokens) && !HasTrailing(tokens) {
      PlainOfPlain(tokens);
    }
    if Strip(text) == Some(text) {
      OutputIsNoLonger(text);
      OutputTokens(text);
      SettledHasNoComment(tokens);
      PlainOfPlain(tokens);
    }
  }

  // --- Again ------------------------------------------------------------------

  /** Behind a comma that stays, dropping does not change whether a bracket follows. */
  lemma {:induction false} CloserAfterDrop(tokens: seq<Token>)
    ensures CloserFollows(Drop(tokens, Some(','))) <==> CloserFollows(tokens)
    decreases |tokens|
  {
    if tokens != [] {
      CloserAfterDrop(tokens[1..]);
      if IsBlank(tokens[0]) {
        assert Drop(tokens, Some(','))[1..] == Drop(tokens[1..], Some(','));
      }
    }
  }

  lemma {:induction false} DropTwice(tokens: seq<Token>, last: Option<char>)
    ensures Drop(Drop(tokens, last), last) == Drop(tokens, last)
    decreases |tokens|
  {
    if tokens != [] {
      var t, rest := tokens[0], tokens[1..];
      var next := if IsBlank(t) then last else Some(Mark(t));
      if t == Other(',') && CloserFollows(rest) && TrailsElement(last) {
        DropTwice(rest, last);
      } else {
        DropTwice(rest, next);
        assert ([t] + Drop(rest, next))[1..] == Drop(rest, next);
        if t == Other(',') {
          CloserAfterDrop(rest);
        }
      }
    }
  }

  /** What comes out goes through unchanged, exactly when it does not begin with a byte-order mark. */
  lemma {:induction false} OutputIsPlain(text: string)
    requires Strip(text).Some?
    ensures var out := Strip(text).value;
      Strip(out) == Some(out) <==> !LeadingBOM(out)
  {
    var out := Strip(text).value;
    var kept := Drop(PlainTokens(Lex(StripBOM(text))), None);
    OutputTokens(text);
    SettledHasNoComment(kept);
    PlainOfPlain(kept);
    DropTwice(PlainTokens(Lex(StripBOM(text))), None);
    TextsOfLex(out);
    hide Drop, Lex, Texts, PlainTokens, Settled, Next;
    if LeadingBOM(out) && Strip(out).Some? {
      OutputIsNoLonger(out);
    }
  }

  // --- Refusal ----------------------------------------------------------------

  /** A point of the text outside every string and comment. */
  predicate Outside(s: string, k: nat)
    decreases |s|
  {
    k == 0 || (s != [] && |TextOf(Next(s))| <= k && Outside(s[|TextOf(Next(s))|..], k - |TextOf(Next(s))|))
  }

  predicate EndsComment(s: string, i: nat) {
    i + 1 < |s| && s[i] == '*' && s[i + 1] == '/'
  }

  lemma {:induction false} NoCommentEnd(s: string)
    ensures AfterCommentEnd(s).None? <==> forall i: nat :: !EndsComment(s, i)
  {
    if |s| >= 2 {
      NoCommentEnd(s[1..]);
      assert forall i: nat :: EndsComment(s[1..], i) <==> EndsComment(s, i + 1);
      if AfterCommentEnd(s).None? {
        forall i: nat ensures !EndsComment(s, i) {
          if i > 0 {
            assert EndsComment(s[1..], i - 1) <==> EndsComment(s, i - 1 + 1);
          }
        }
      } else {
        assert s[0] == '*' && s[1] == '/' ==> EndsComment(s, 0);
      }
    }
  }

  ghost predicate Unterminated(s: string, k: nat) {
    k <= |s| && Outside(s, k) && "/*" <= s[k..] && forall i: nat :: !EndsComment(s[k..][2..], i)
  }

  lemma {:induction false} UnterminatedAt(s: string, k: nat)
    requires s != []
    ensures var n := |TextOf(Next(s))|;
      Unterminated(s, k) <==> (k == 0 && Next(s).Open?) || (k >= n && Unterminated(s[n..], k - n))
  {
    hide Next, EndsComment;
    OpenHere(s);
    var n := |TextOf(Next(s))|;
    if k >= n && k <= |s| {
      assert s[k..] == s[n..][k - n..];
    }
  }

  lemma LexStep(s: string)
    requires s != []
    ensures Lex(s) == [Next(s)] + Lex(s[|TextOf(Next(s))|..])
  {}

  lemma {:induction false} PointOfOpen(s: string) returns (k: nat)
    requires exists t :: t in Lex(s) && t.Open?
    ensures Unterminated(s, k)
    decreases |s|
  {
    hide Next, Unterminated;
    assert s != [];
    var n := |TextOf(Next(s))|;
    LexStep(s);
    if Next(s).Open? {
      k := 0;
    } else {
      var rest := PointOfOpen(s[n..]);
      k := rest + n;
    }
    UnterminatedAt(s, k);
  }

  lemma {:induction false} OpenAtPoint(s: string, k: nat) returns (t: Token)
    requires Unterminated(s, k)
    ensures t in Lex(s) && t.Open?
    decreases |s|
  {
    hide Next, Unterminated;
    if s == [] {
      NothingUnterminated(k);
    } else {
      LexStep(s);
      UnterminatedAt(s, k);
      if Next(s).Open? {
        t := Next(s);
      } else {
        t := OpenAtPoint(s[|TextOf(Next(s))|..], k - |TextOf(Next(s))|);
      }
    }
  }

  lemma NothingUnterminated(k: nat)
    ensures !Unterminated("", k)
  {}

  lemma {:induction false} OpenHere(s: string)
    requires s != []
    ensures Next(s).Open? <==> Unterminated(s, 0)
  {
    hide LiteralRest, LineLength, EndsComment, AfterCommentEnd;
    assert s[0..] == s;
    if "/*" <= s {
      assert s[0] == '/' && s[1] == '*' && !("//" <= s);
      NoCommentEnd(s[2..]);
    }
  }

  /** The scanner refuses exactly a text with a block comment that is never closed. */
  lemma {:induction false} FailsExactlyWhenUnterminated(text: string)
    ensures Strip(text).None? <==> exists k: nat :: Unterminated(StripBOM(text), k)
  {
    hide Lex, Unterminated, StripBOM;
    if Strip(text).None? {
      var k := PointOfOpen(StripBOM(text));
    }
    if k: nat :| Unterminated(StripBOM(text), k) {
      var t := OpenAtPoint(StripBOM(text), k);
    }
  }
}
