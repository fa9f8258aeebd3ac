/** A value as the lines it is shown on, and the printers measured against them. */
module JsonLayout {
  import opened Joining
  import opened JsonText

  /** A line of text, so many levels deep. */
  datatype Line = Line(depth: nat, text: string)

  // --- The lines of a value ---------------------------------------------------

  ghost function Deeper(lines: seq<Line>, n: nat): (r: seq<Line>)
    ensures |r| == |lines|
  {
    seq(|lines|, i requires 0 <= i < |lines| => Line(lines[i].depth + n, lines[i].text))
  }

  /** With something in front of the first line. */
  ghost function Led(front: string, lines: seq<Line>): (r: seq<Line>)
    requires lines != []
    ensures r != [] && r[0].depth == lines[0].depth
  {
    [Line(lines[0].depth, front + lines[0].text)] + lines[1..]
  }

  /** With something behind the last line. */
  ghost function Ended(lines: seq<Line>, end: string): (r: seq<Line>)
    requires lines != []
    ensures r != []
  {
    var n := |lines| - 1;
    lines[..n] + [Line(lines[n].depth, lines[n].text + end)]
  }

  /**
    A scalar or an empty container is one line. Any other container opens on a line,
    shows what it holds a level deeper, a comma behind all but the last, and closes on a
    line of its own.
   */
  ghost function Lines(v: Json, colon: string): (r: seq<Line>)
    ensures r != [] && r[0].depth == 0
    decreases v
  {
    match v
    case Null => [Line(0, "null")]
    case Bool(b) => [Line(0, if b then "true" else "false")]
    case Num(text) => [Line(0, text)]
    case Overflow => [Line(0, "null")]
    case Str(s) => [Line(0, Quote(s))]
    case Arr(items) =>
      if items == [] then [Line(0, "[]")]
      else [Line(0, "[")] + Deeper(ItemLines(items, colon), 1) + [Line(0, "]")]
    case Obj(members) =>
      if members == [] then [Line(0, "{}")]
      else [Line(0, "{")] + Deeper(MemberLines(members, colon), 1) + [Line(0, "}")]
  }

  ghost function ItemLines(items: seq<Json>, colon: string): seq<Line>
    requires items != []
    decreases items
  {
    var first := Lines(items[0], colon);
    if |items| == 1 then first else Ended(first, ",") + ItemLines(items[1..], colon)
  }

  ghost function MemberLines(members: seq<Member>, colon: string): seq<Line>
    requires members != []
    decreases members
  {
    var first := Led(Quote(members[0].key) + colon, Lines(members[0].value, colon));
    if |members| == 1 then first else Ended(first, ",") + MemberLines(members[1..], colon)
  }

  // --- What the lines come to -------------------------------------------------

  ghost function Indented(lines: seq<Line>): (r: seq<string>)
    ensures |r| == |lines|
  {
    seq(|lines|, i requires 0 <= i < |lines| => seq(2 * lines[i].depth, _ => ' ') + lines[i].text)
  }

  /** The value on lines of its own, two spaces in for each level. */
  ghost function Shown(v: Json): string {
    Join(Indented(Lines(v, ": ")), '\n')
  }

  ghost function Unbroken(lines: seq<Line>): string {
    if lines == [] then "" else lines[0].text + Unbroken(lines[1..])
  }

  /** The value on one line, with no white space between its parts. */
  ghost function OneLine(v: Json): string {
    Unbroken(Lines(v, ":"))
  }

  // --- Printing, line by line -------------------------------------------------

  /** Each line behind the break that leads to it. */
  ghost function Laid(style: Style, lines: seq<Line>): string {
    if lines == [] then "" else Break(style, lines[0].depth) + lines[0].text + Laid(style, lines[1..])
  }

  lemma {:induction false} LaidAdds(style: Style, a: seq<Line>, b: seq<Line>)
    ensures Laid(style, a + b) == Laid(style, a) + Laid(style, b)
  {
    hide Break;
    if a == [] {
      assert a + b == b;
    } else {
      assert (a + b)[1..] == a[1..] + b;
      LaidAdds(style, a[1..], b);
    }
  }

  lemma LaidLine(style: Style, line: Line)
    ensures Laid(style, [line]) == Break(style, line.depth) + line.text
  {
    assert [line][1..] == [];
  }

  lemma {:induction false} LaidEnded(style: Style, lines: seq<Line>, end: string)
    requires lines != []
    ensures Laid(style, Ended(lines, end)) == Laid(style, lines) + end
  {
    hide Break, Laid;
    var n := |lines| - 1;
    assert lines == lines[..n] + [lines[n]];
    LaidAdds(style, lines[..n], [lines[n]]);
    LaidAdds(style, lines[..n], [Line(lines[n].depth, lines[n].text + end)]);
    LaidLine(style, lines[n]);
    LaidLine(style, Line(lines[n].depth, lines[n].text + end));
  }

  lemma {:induction false} LaidLed(style: Style, front: string, lines: seq<Line>, body: string)
    requires lines != [] && Laid(style, lines) == Break(style, lines[0].depth) + body
    ensures Laid(style, Led(front, lines)) == Break(style, lines[0].depth) + (front + body)
  {
    hide Break;
    var rest := Laid(style, lines[1..]);
    var before := Break(style, lines[0].depth);
    assert before + lines[0].text + rest == before + (lines[0].text + rest);
    assert (before + body)[|before|..] == (before + (lines[0].text + rest))[|before|..];
    assert body == lines[0].text + rest;
    assert Led(front, lines)[1..] == lines[1..];
  }

  lemma DeeperParts(a: seq<Line>, b: seq<Line>, n: nat)
    ensures Deeper(a + b, n) == Deeper(a, n) + Deeper(b, n)
  {}

  lemma DeeperTwice(lines: seq<Line>, n: nat)
    ensures Deeper(Deeper(lines, 1), n) == Deeper(lines, n + 1)
  {}

  lemma DeeperEnded(lines: seq<Line>, n: nat, end: string)
    requires lines != []
    ensures Deeper(Ended(lines, end), n) == Ended(Deeper(lines, n), end)
  {}

  lemma DeeperLed(lines: seq<Line>, n: nat, front: string)
    requires lines != []
    ensures Deeper(Led(front, lines), n) == Led(front, Deeper(lines, n))
  {}

  /** What a printer gives at any depth is the lines of the value, that much deeper. */
  lemma {:induction false} PrintedAsLines(v: Json, style: Style, depth: nat)
    ensures Laid(style, Deeper(Lines(v, Colon(style)), depth)) == Break(style, depth) + Print(v, style, depth)
    decreases v
  {
    hide Break, Laid, ItemLines, MemberLines, PrintItems, PrintMembers, Quote, Colon;
    match v
    case Arr(items) =>
      if items != [] {
        ItemsAsLines(items, style, depth);
        ContainerAsLines(ItemLines(items, Colon(style)), "[", "]", style, depth);
      } else {
        OneAsLine(v, style, depth);
      }
    case Obj(members) =>
      if members != [] {
        MembersAsLines(members, style, depth);
        ContainerAsLines(MemberLines(members, Colon(style)), "{", "}", style, depth);
      } else {
        OneAsLine(v, style, depth);
      }
    case _ => OneAsLine(v, style, depth);
  }

  lemma OneAsLine(v: Json, style: Style, depth: nat)
    requires v.Arr? ==> v.items == []
    requires v.Obj? ==> v.members == []
    ensures Laid(style, Deeper(Lines(v, Colon(style)), depth)) == Break(style, depth) + Print(v, style, depth)
  {
    hide Break, Laid, ItemLines, MemberLines, PrintItems, PrintMembers, Quote, Colon;
    var line := Lines(v, Colon(style))[0];
    assert Deeper([line], depth) == [Line(depth, line.text)];
    LaidLine(style, Line(depth, line.text));
  }

  lemma {:induction false} ContainerAsLines(lines: seq<Line>, open: string, close: string, style: Style, depth: nat)
    ensures Laid(style, Deeper([Line(0, open)] + Deeper(lines, 1) + [Line(0, close)], depth))
      == Break(style, depth) + open + Laid(style, Deeper(lines, depth + 1)) + Break(style, depth) + close
  {
    hide Break, Laid;
    var a, b, c := [Line(0, open)], Deeper(lines, 1), [Line(0, close)];
    DeeperParts(a + b, c, depth);
    DeeperParts(a, b, depth);
    DeeperTwice(lines, depth);
    assert Deeper(a, depth) == [Line(depth, open)] && Deeper(c, depth) == [Line(depth, close)];
    LaidAdds(style, Deeper(a, depth) + Deeper(b, depth), Deeper(c, depth));
    LaidAdds(style, Deeper(a, depth), Deeper(b, depth));
    LaidLine(style, Line(depth, open));
    LaidLine(style, Line(depth, close));
  }

  lemma {:induction false} ItemsAsLines(items: seq<Json>, style: Style, depth: nat)
    requires items != []
    ensures PrintItems(items, style, depth)
      == Laid(style, Deeper(ItemLines(items, Colon(style)), depth + 1)) + Break(style, depth) + "]"
    decreases items
  {
    hide Break, Laid, Lines, Print, Quote, Colon, Ended;
    PrintedAsLines(items[0], style, depth + 1);
    if |items| > 1 {
      ItemsAsLines(items[1..], style, depth);
      FirstOfMore(Lines(items[0], Colon(style)), ItemLines(items[1..], Colon(style)), style, depth + 1);
    }
  }

  lemma {:induction false} MembersAsLines(members: seq<Member>, style: Style, depth: nat)
    requires members != []
    ensures PrintMembers(members, style, depth)
      == Laid(style, Deeper(MemberLines(members, Colon(style)), depth + 1)) + Break(style, depth) + "}"
    decreases members
  {
    hide Break, Laid, Lines, Print, Quote, Colon, Led, Ended;
    var m, colon := members[0], Colon(style);
    var first := Led(Quote(m.key) + colon, Lines(m.value, colon));
    PrintedAsLines(m.value, style, depth + 1);
    NameAsLed(Quote(m.key), colon, Lines(m.value, colon), style, depth + 1, Print(m.value, style, depth + 1));
    if |members| > 1 {
      MembersAsLines(members[1..], style, depth);
      FirstOfMore(first, MemberLines(members[1..], colon), style, depth + 1);
    }
  }

  lemma {:induction false} NameAsLed(
      name: string, colon: string, value: seq<Line>, style: Style, depth: nat, text: string)
    requires value != [] && value[0].depth == 0
    requires Laid(style, Deeper(value, depth)) == Break(style, depth) + text
    ensures Laid(style, Deeper(Led(name + colon, value), depth)) == Break(style, depth) + name + colon + text
  {
    hide Break, Laid;
    DeeperLed(value, depth, name + colon);
    LaidLed(style, name + colon, Deeper(value, depth), text);
  }

  /** Behind the first of several comes a comma, and then the others. */
  lemma {:induction false} FirstOfMore(first: seq<Line>, rest: seq<Line>, style: Style, depth: nat)
    requires first != []
    ensures Laid(style, Deeper(Ended(first, ",") + rest, depth))
      == Laid(style, Deeper(first, depth)) + "," + Laid(style, Deeper(rest, depth))
  {
    hide Laid;
    DeeperParts(Ended(first, ","), rest, depth);
    DeeperEnded(first, depth, ",");
    LaidEnded(style, Deeper(first, depth), ",");
    LaidAdds(style, Deeper(Ended(first, ","), depth), Deeper(rest, depth));
  }

  // --- The two printers -------------------------------------------------------

  lemma {:induction false} LaidIsUnbroken(lines: seq<Line>)
    ensures Laid(Minified, lines) == Unbroken(lines)
  {
    if lines != [] { LaidIsUnbroken(lines[1..]); }
  }

  lemma {:induction false} LaidIsJoined(lines: seq<Line>)
    requires lines != []
    ensures Laid(TwoSpace, lines) == ['\n'] + Join(Indented(lines), '\n')
  {
    hide Indented, Break;
    var first := Indented(lines)[0];
    IndentedFirst(lines);
    if |lines| > 1 {
      LaidIsJoined(lines[1..]);
      assert ([first] + Indented(lines[1..]))[1..] == Indented(lines[1..]);
    } else {
      assert lines[1..] == [] && Laid(TwoSpace, []) == "";
    }
  }

  lemma IndentedFirst(lines: seq<Line>)
    requires lines != []
    ensures Indented(lines) == [Indented(lines)[0]] + Indented(lines[1..])
    ensures Break(TwoSpace, lines[0].depth) + lines[0].text == ['\n'] + Indented(lines)[0]
  {}

  /** One printer gives the value on one line, the other on lines of its own, two spaces in for each level. */
  lemma {:induction false} PrintersShow(v: Json)
    ensures Min(v) == OneLine(v) && Pretty(v) == Shown(v)
  {
    hide Laid, Lines, Print, Indented, Join;
    PrintedAsLines(v, Minified, 0);
    PrintedAsLines(v, TwoSpace, 0);
    NoDeeper(Lines(v, ":"));
    NoDeeper(Lines(v, ": "));
    LaidIsUnbroken(Lines(v, ":"));
    LaidIsJoined(Lines(v, ": "));
    var texts := Join(Indented(Lines(v, ": ")), '\n');
    assert ['\n'] + Spaces(0) == ['\n'];
    assert (['\n'] + texts)[1..] == texts && (['\n'] + Pretty(v))[1..] == Pretty(v);
  }

  lemma NoDeeper(lines: seq<Line>)
    ensures Deeper(lines, 0) == lines
  {}
}
