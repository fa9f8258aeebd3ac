/** A JSON column kept as a field file: indented on disk when that is reversible, minified again on push. */
module JsonField {
  import opened Collections
  import opened Decimal
  import opened JsText
  import opened JsonText
  import opened JsonRoundTrip
  import opened JsonGrammar
  import opened JsonLayout

  function TryParse(canon: string -> Option<string>, raw: string): Option<Json> {
    if Blank(raw) then None else Parse(canon, raw)
  }

  /** What a download puts on disk for a value. */
  function FormatForDisk(canon: string -> Option<string>, raw: string): string {
    var parsed := TryParse(canon, raw);
    if parsed.None? || Min(parsed.value) != raw then raw else Pretty(parsed.value)
  }

  datatype Pushed = Sent(text: string) | Invalid

  /** Without one final line break. */
  function DropFinalNewline(s: string): string {
    if s == [] || s[|s| - 1] != '\n' then s
    else if |s| > 1 && s[|s| - 2] == '\r' then s[..|s| - 2]
    else s[..|s| - 1]
  }

  /** The value a field file is pushed as. */
  function ForInstance(canon: string -> Option<string>, content: string): Pushed {
    if Blank(content) then Sent(content)
    else
      var value := Parse(canon, content);
      if value.None? then Invalid
      else if DropFinalNewline(content) == Pretty(value.value) then Sent(Min(value.value))
      else Sent(content)
  }

  /** A value stored in the two-space form, up to one final line break, where that is not its minified form. */
  predicate StoredIndented(canon: string -> Option<string>, raw: string) {
    var v := TryParse(canon, raw);
    v.Some? && Min(v.value) != raw && DropFinalNewline(raw) == Pretty(v.value)
  }

  // --- Shape of printed text --------------------------------------------------

  lemma NumberLast(s: string)
    requires IsNumber(s)
    ensures s != [] && IsDigit(s[|s| - 1])
  {}

  lemma {:induction false} PrintLast(canon: string -> Option<string>, v: Json, style: Style, depth: nat)
    requires Normal(canon, v)
    ensures var p := Print(v, style, depth);
      p != [] && !IsWs(p[|p| - 1]) && !Blank(p)
  {
    hide PrintItems, PrintMembers, IsNumber;
    PrintHead(canon, v, style, depth);
    match v
    case Num(text) => NumberLast(text);
    case Arr(items) => if items != [] { ItemsLast(items, style, depth); }
    case Obj(members) => if members != [] { MembersLast(members, style, depth); }
    case _ =>
    NotBlank(canon, v, style, depth);
  }

  lemma {:induction false} NotBlank(canon: string -> Option<string>, v: Json, style: Style, depth: nat)
    requires Normal(canon, v)
    ensures !Blank(Print(v, style, depth))
  {
    if v.Num? {
      NumberHead(v.text);
    }
    assert !IsSpace(Print(v, style, depth)[0]);
  }

  lemma {:induction false} ItemsLast(items: seq<Json>, style: Style, depth: nat)
    requires items != []
    ensures var p := PrintItems(items, style, depth); p != [] && p[|p| - 1] == ']'
    decreases items
  {
    hide Print, Break;
    if |items| > 1 {
      ItemsLast(items[1..], style, depth);
    }
  }

  lemma {:induction false} MembersLast(members: seq<Member>, style: Style, depth: nat)
    requires members != []
    ensures var p := PrintMembers(members, style, depth); p != [] && p[|p| - 1] == '}'
    decreases members
  {
    hide Print, Break, Quote, Colon;
    if |members| > 1 {
      MembersLast(members[1..], style, depth);
    }
  }

  // --- Printed texts ---------------------------------------------------------

  /** Only a value that prints in full equals its own print, with or without a final line break. */
  lemma {:induction false} PrintedIsSettled(canon: string -> Option<string>, raw: string, v: Json, style: Style)
    requires Doubles(canon) && Parse(canon, raw) == Some(v)
    requires DropFinalNewline(raw) == Print(v, style, 0) || raw == Print(v, style, 0)
    ensures Normal(canon, v) && Settle(v) == v
  {
    hide Value, Normal, Print, Settle;
    ValueIsNormal(canon, SkipWs(raw));
    PrintHead(canon, v, style, 0);
    var p := Print(v, style, 0);
    var end := if raw == p then [] else raw[|p|..];
    assert raw == p + end;
    assert SkipWs(raw) == raw;
    ValueOfPrint(canon, v, style, 0, end);
  }

  /** What either printer wrote reads back as the same value. */
  lemma {:induction false} ReadsBack(canon: string -> Option<string>, v: Json, style: Style)
    requires Doubles(canon) && Normal(canon, v) && Settle(v) == v
    ensures var p := Print(v, style, 0);
      Parse(canon, p) == Some(v) && !Blank(p) && DropFinalNewline(p) == p
  {
    hide Parse, Print, Settle, Normal, Blank;
    ParseOfPrint(canon, v, style);
    PrintLast(canon, v, style, 0);
  }

  // --- What each side writes --------------------------------------------------

  lemma {:induction false} TextIsNotBlank(canon: string -> Option<string>, s: string, v: Json)
    requires JsonTextOf(canon, s, v)
    ensures !Blank(s)
  {
    hide ValueText, Ws;
    var i, j :| 0 <= i <= j <= |s| && Ws(s[..i]) && ValueText(canon, s[i..j], v) && Ws(s[j..]);
    ValueBegins(canon, s[i..j], v);
    assert s[i] == s[i..j][0];
  }

  /** On disk stands the two-space form of a value stored on one line, and any other text as it is stored. */
  lemma {:induction false} OnDiskExactlyWhen(canon: string -> Option<string>, raw: string)
    ensures forall v :: JsonTextOf(canon, raw, v) ==>
      FormatForDisk(canon, raw) == if raw == OneLine(v) then Shown(v) else raw
    ensures (forall v :: !JsonTextOf(canon, raw, v)) ==> FormatForDisk(canon, raw) == raw
  {
    hide JsonTextOf, Parse, Print, OneLine, Shown, Blank;
    forall v ensures JsonTextOf(canon, raw, v) <==> Parse(canon, raw) == Some(v) {
      ParsesExactlyTheGrammar(canon, raw, v);
    }
    var parsed := Parse(canon, raw);
    if parsed.Some? {
      TextIsNotBlank(canon, raw, parsed.value);
      PrintersShow(parsed.value);
    }
  }

  /** Nothing, or one line break. */
  predicate FinalBreak(s: string) {
    s == "" || s == "\n" || s == "\r\n"
  }

  /** A blank file is sent as it is, a two-space form on one line, any other JSON as it is; the rest is refused. */
  lemma {:induction false} SentExactlyWhen(canon: string -> Option<string>, content: string)
    requires Doubles(canon)
    ensures Blank(content) ==> ForInstance(canon, content) == Sent(content)
    ensures forall v :: JsonTextOf(canon, content, v) ==>
      ForInstance(canon, content) ==
        Sent(if exists end :: FinalBreak(end) && content == Shown(v) + end then OneLine(v) else content)
    ensures !Blank(content) && (forall v :: !JsonTextOf(canon, content, v)) ==> ForInstance(canon, content).Invalid?
  {
    hide JsonTextOf, Parse, Print, OneLine, Shown, Blank, DropFinalNewline, FinalBreak;
    forall v ensures JsonTextOf(canon, content, v) <==> Parse(canon, content) == Some(v) {
      ParsesExactlyTheGrammar(canon, content, v);
    }
    var parsed := Parse(canon, content);
    if parsed.Some? {
      TextIsNotBlank(canon, content, parsed.value);
      PrintersShow(parsed.value);
      ParsedPrintLast(canon, content);
      WithoutFinalBreak(content, Shown(parsed.value));
    }
  }

  lemma {:induction false} ParsedPrintLast(canon: string -> Option<string>, s: string)
    requires Doubles(canon) && Parse(canon, s).Some?
    ensures var p := Pretty(Parse(canon, s).value);
      p != [] && !IsWs(p[|p| - 1])
  {
    hide Value, Print, Normal;
    ValueIsNormal(canon, SkipWs(s));
    PrintLast(canon, Parse(canon, s).value, TwoSpace, 0);
  }

  lemma WithoutFinalBreak(s: string, body: string)
    requires body != [] && !IsWs(body[|body| - 1])
    ensures DropFinalNewline(s) == body <==> exists end :: FinalBreak(end) && s == body + end
  {
    if DropFinalNewline(s) == body {
      var end := s[|body|..];
      assert FinalBreak(end) && s == body + end;
    }
  }

  // --- There and back ---------------------------------------------------------

  /**
    Pushing what download wrote gives the stored value back, unless it was stored in
    the two-space form: then its minified form is sent, with the same JSON value.
   */
  lemma {:induction false} RoundTrip(canon: string -> Option<string>, raw: string)
    requires Doubles(canon)
    ensures var pushed := ForInstance(canon, FormatForDisk(canon, raw));
      && (pushed.Invalid? <==> !Blank(raw) && Parse(canon, raw).None?)
      && (pushed == Sent(raw) <==> !pushed.Invalid? && !StoredIndented(canon, raw))
      && (StoredIndented(canon, raw) ==>
            pushed == Sent(Min(Parse(canon, raw).value)) && Parse(canon, pushed.text) == Parse(canon, raw))
  {
    hide Parse, Print, Settle, Normal, Blank, DropFinalNewline;
    var parsed := TryParse(canon, raw);
    if parsed.Some? {
      var v := parsed.value;
      if Min(v) == raw {
        PrintedIsSettled(canon, raw, v, Minified);
        ReadsBack(canon, v, TwoSpace);
      } else if DropFinalNewline(raw) == Pretty(v) {
        PrintedIsSettled(canon, raw, v, TwoSpace);
        ReadsBack(canon, v, Minified);
      }
    }
  }

  /** A second round trip changes nothing, and rewrites the file by at most its final line break. */
  lemma {:induction false} SecondRoundTrip(canon: string -> Option<string>, raw: string)
    requires Doubles(canon) && ForInstance(canon, FormatForDisk(canon, raw)).Sent?
    ensures var file := FormatForDisk(canon, raw);
      var stored := ForInstance(canon, file).text;
      && FormatForDisk(canon, stored) == (if StoredIndented(canon, raw) then DropFinalNewline(file) else file)
      && ForInstance(canon, FormatForDisk(canon, stored)) == Sent(stored)
  {
    hide Parse, Print, Settle, Normal, Blank, DropFinalNewline;
    RoundTrip(canon, raw);
    if StoredIndented(canon, raw) {
      var v := Parse(canon, raw).value;
      PrintedIsSettled(canon, raw, v, TwoSpace);
      ReadsBack(canon, v, Minified);
      RoundTrip(canon, Min(v));
    }
  }
}
