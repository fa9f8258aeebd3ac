/** The scanner itself: two passes over the characters, each with its own position. */
module JsonExtensionsScanner {
  import opened Collections
  import opened JsText
  import opened JsonExtensions
  import opened JsonExtensionsTheorems

  /** The text without its comments; none where a block comment has no end. */
  function Plain(s: string): Option<string> {
    if exists t :: t in Lex(s) && t.Open? then None else Some(Texts(PlainTokens(Lex(s))))
  }

  function Behind(done: string, rest: Option<string>): Option<string> {
    if rest.None? then None else Some(done + rest.value)
  }

  /** What the first pass writes for one token. */
  function PlainText(t: Token): Option<string> {
    match t
    case Open(_) => None
    case Line(_) => Some("\n")
    case Block(text) => Some(Blanked(text))
    case _ => Some(TextOf(t))
  }

  lemma {:induction false} PlainStep(s: string)
    requires s != []
    ensures var t := Next(s);
      Plain(s) == if t.Open? then None else Behind(PlainText(t).value, Plain(s[|TextOf(t)|..]))
  {
    hide Next;
    var t := Next(s);
    var rest := s[|TextOf(t)|..];
    LexStep(s);
    assert Lex(s)[0] == t && Lex(s)[1..] == Lex(rest);
    assert forall x :: x in Lex(s) <==> x == t || x in Lex(rest);
    if !t.Open? {
      var plain := PlainTokens(Lex(rest));
      match t
      case Line(_) => TextsConcat([Other('\n')], plain);
      case Block(text) =>
        TextsConcat(Others(Blanked(text)), plain);
        OthersText(Blanked(text));
      case Literal(_) => assert ([t] + plain)[1..] == plain;
      case Other(_) => assert ([t] + plain)[1..] == plain;
    }
  }

  lemma {:induction false} BehindTwice(a: string, b: string, rest: Option<string>)
    ensures Behind(a, Behind(b, rest)) == Behind(a + b, rest)
  {
    if rest.Some? {
      assert a + (b + rest.value) == a + b + rest.value;
    }
  }

  /** The end of the literal that opens at `i`, one past its closing character. */
  method EndOfLiteral(s: string, i: nat) returns (end: nat)
    requires i < |s| && IsQuote(s[i])
    ensures end == i + 1 + LiteralRest(s[i + 1..], s[i])
  {
    var quote := s[i];
    var j := i + 1;
    while j < |s| && s[j] != quote && s[j] != '\n'
      invariant i + 1 <= j <= |s| + 1
      invariant LiteralRest(s[i + 1..], quote) ==
        if j <= |s| then j - (i + 1) + LiteralRest(s[j..], quote) else |s| - (i + 1)
    {
      assert s[j..][1..] == s[j + 1..];
      if s[j] == '\\' {
        if j + 2 <= |s| {
          assert s[j..][2..] == s[j + 2..];
        }
        j := j + 2;
      } else {
        j := j + 1;
      }
    }
    end := if j + 1 <= |s| then j + 1 else |s|;
  }

  /** First pass: comments become spaces, with their line breaks kept. */
  method StripComments(source: string) returns (plain: Option<string>)
    ensures plain == Plain(source)
  {
    hide Plain, Lex, Next, PlainText, TextOf;
    var out, i := "", 0;
    PlainOfNothing();
    assert source[0..] == source && Behind("", Plain(source)) == Plain(source) by { BehindNothing(Plain(source)); }
    while i < |source|
      invariant i <= |source|
      invariant Plain(source) == Behind(out, Plain(source[i..]))
    {
      PlainStep(source[i..]);
      var written, size := TakeToken(source, i);
      if written.None? { return None; }
      assert source[i + size..] == source[i..][size..];
      BehindTwice(out, written.value, Plain(source[i + size..]));
      out := out + written.value;
      i := i + size;
    }
    assert source[i..] == "" && out + "" == out;
    plain := Some(out);
  }

  /** One turn of the first pass: what is written for the token at `i`, and its length. */
  method TakeToken(source: string, i: nat) returns (written: Option<string>, size: nat)
    requires i < |source|
    ensures var t := Next(source[i..]);
      && written == PlainText(t) && (written.None? <==> t.Open?)
      && (written.Some? ==> size == |TextOf(t)| && 0 < size <= |source| - i)
  {
    hide Next, LiteralRest, LineLength, AfterCommentEnd, Blanked, IsQuote;
    var s := source[i..];
    NextAt(s);
    if IsQuote(s[0]) {
      var end := EndOfLiteral(source, i);
      assert source[i + 1..] == s[1..];
      assert source[i..end] == s[..end - i];
      return Some(source[i..end]), end - i;
    }
    if "//" <= s {
      var k := LineLength(s);
      return Some("\n"), if k < |s| then k + 1 else k;
    }
    if "/*" <= s {
      var end := AfterCommentEnd(s[2..]);
      if end.None? { return None, 0; }
      return Some(Blanked(s[..2 + end.value])), 2 + end.value;
    }
    return Some([s[0]]), 1;
  }

  lemma PlainOfNothing()
    ensures Plain("") == Some("")
  {}

  lemma {:induction false} BehindNothing(rest: Option<string>)
    ensures Behind("", rest) == rest
  {
    if rest.Some? {
      assert "" + rest.value == rest.value;
    }
  }

  /** What is read at the front of the text, and what the first pass writes for it. */
  lemma NextAt(s: string)
    requires s != []
    ensures var t := Next(s);
      var size := |TextOf(t)|;
      if IsQuote(s[0]) then size == 1 + LiteralRest(s[1..], s[0]) && PlainText(t) == Some(s[..size])
      else if "//" <= s then
        size == (if LineLength(s) < |s| then LineLength(s) + 1 else |s|) && PlainText(t) == Some("\n")
      else if "/*" <= s then
        if AfterCommentEnd(s[2..]).None? then t.Open?
        else size == 2 + AfterCommentEnd(s[2..]).value && PlainText(t) == Some(Blanked(s[..size]))
      else size == 1 && PlainText(t) == Some([s[0]])
  {
    hide LiteralRest, LineLength, AfterCommentEnd, IsQuote, Blanked, Lex, Texts;
  }

  /** The next character that is no white space is a closing bracket. */
  predicate BracketNext(s: string) {
    s != [] && if IsSpace(s[0]) then BracketNext(s[1..]) else s[0] == '}' || s[0] == ']'
  }

  lemma {:induction false} BracketIsCloser(s: string)
    ensures BracketNext(s) <==> CloserFollows(Lex(s))
  {
    if s != [] {
      if IsSpace(s[0]) {
        assert Next(s) == Other(s[0]);
        assert Lex(s)[1..] == Lex(s[1..]);
        BracketIsCloser(s[1..]);
      } else {
        assert Lex(s)[0] == Next(s);
        NextIsFirst(s);
      }
    }
  }

  lemma NextIsFirst(s: string)
    requires s != []
    ensures s[0] == '}' || s[0] == ']' <==> Next(s) == Other('}') || Next(s) == Other(']')
  {}

  ghost predicate NoComments(s: string) {
    forall t :: t in Lex(s) ==> t.Literal? || t.Other?
  }

  lemma {:induction false} DropAt(s: string, last: Option<char>)
    requires s != [] && NoComments(s)
    ensures var size := if IsQuote(s[0]) then 1 + LiteralRest(s[1..], s[0]) else 1;
      && NoComments(s[size..])
      && Texts(Drop(Lex(s), last)) ==
           if s[0] == ',' && BracketNext(s[1..]) && TrailsElement(last) then Texts(Drop(Lex(s[1..]), last))
           else s[..size] + Texts(Drop(Lex(s[size..]), if IsSpace(s[0]) then last else Some(s[0])))
  {
    hide Next, Lex, LiteralRest, BracketNext, CloserFollows, Drop, Texts, TrailsElement, LineLength, AfterCommentEnd;
    var t := Next(s);
    var rest := s[|TextOf(t)|..];
    LexStep(s);
    assert t in Lex(s) && Lex(s)[1..] == Lex(rest);
    assert forall x :: x in Lex(rest) ==> x in Lex(s);
    NextAt(s);
    CommentFree(s);
    BracketIsCloser(s[1..]);
    DropUnfolds(Lex(s), last);
  }

  lemma DropUnfolds(tokens: seq<Token>, last: Option<char>)
    requires tokens != []
    ensures var t := tokens[0];
      Texts(Drop(tokens, last)) ==
        if t == Other(',') && CloserFollows(tokens[1..]) && TrailsElement(last) then Texts(Drop(tokens[1..], last))
        else TextOf(t) + Texts(Drop(tokens[1..], if IsBlank(t) then last else Some(Mark(t))))
  {}

  lemma CommentFree(s: string)
    requires s != [] && (Next(s).Literal? || Next(s).Other?)
    ensures Next(s).Literal? <==> IsQuote(s[0])
    ensures Next(s).Other? ==> Next(s) == Other(s[0])
    ensures TextOf(Next(s))[0] == s[0] && (Next(s).Literal? ==> !IsSpace(s[0]) && s[0] != ',')
    ensures !IsQuote(s[0]) ==> |TextOf(Next(s))| == 1
  {}

  /** Second pass: a comma that trails an element before a closing bracket is dropped. */
  method DropCommas(plain: string) returns (out: string)
    requires NoComments(plain)
    ensures out == Texts(Drop(Lex(plain), None))
  {
    hide NoComments, Lex, LiteralRest, Drop, Texts, TrailsElement;
    var i := 0;
    var last: Option<char> := None;
    out := "";
    assert plain[0..] == plain;
    DropNothing();
    while i < |plain|
      invariant i <= |plain| && NoComments(plain[i..])
      invariant Texts(Drop(Lex(plain), None)) == out + Texts(Drop(Lex(plain[i..]), last))
    {
      var ch := plain[i];
      DropAt(plain[i..], last);
      assert plain[i..][1..] == plain[i + 1..];
      if IsQuote(ch) {
        var end := EndOfLiteral(plain, i);
        assert plain[i..][..end - i] == plain[i..end] && plain[i..][end - i..] == plain[end..];
        out, last, i := out + plain[i..end], Some(ch), end;
        continue;
      }
      assert plain[i..][..1] == [ch];
      if ch == ',' {
        var bracket := SkipsToBracket(plain, i + 1);
        if bracket && TrailsElement(last) {
          i := i + 1;
          continue;
        }
      }
      out := out + [ch];
      if !IsSpace(ch) {
        last := Some(ch);
      }
      i := i + 1;
    }
    assert plain[i..] == "";
  }

  lemma DropNothing()
    ensures forall last :: Texts(Drop(Lex(""), last)) == ""
  {}

  /** Whether only white space stands between `from` and a closing bracket. */
  method SkipsToBracket(s: string, from: nat) returns (bracket: bool)
    requires from <= |s|
    ensures bracket <==> BracketNext(s[from..])
  {
    var j := from;
    while j < |s| && IsSpace(s[j])
      invariant from <= j <= |s|
      invariant BracketNext(s[from..]) <==> BracketNext(s[j..])
    {
      assert s[j..][1..] == s[j + 1..];
      j := j + 1;
    }
    bracket := j < |s| && (s[j] == '}' || s[j] == ']');
  }

  /** `stripJsonExtensions`: none where it throws. */
  method StripJsonExtensions(text: string) returns (stripped: Option<string>)
    ensures stripped == Strip(text)
  {
    hide Lex, Texts, Drop, PlainTokens, StripBOM;
    var source := StripBOM(text);
    var plain := StripComments(source);
    if plain.None? { return None; }
    PlainHasNoComments(source);
    var out := DropCommas(plain.value);
    stripped := Some(out);
  }

  lemma {:induction false} PlainHasNoComments(source: string)
    requires Plain(source).Some?
    ensures NoComments(Plain(source).value) && Lex(Plain(source).value) == PlainTokens(Lex(source))
  {
    hide Lex, Texts, PlainTokens;
    PlainIsSettled(source);
    LexOfTexts(PlainTokens(Lex(source)));
    SettledKinds(PlainTokens(Lex(source)));
  }

  lemma {:induction false} SettledKinds(tokens: seq<Token>)
    requires Settled(tokens)
    ensures forall t :: t in tokens ==> t.Literal? || t.Other?
    decreases |tokens|
  {
    if tokens != [] {
      SettledKinds(tokens[1..]);
      assert tokens == [tokens[0]] + tokens[1..];
    }
  }
}
