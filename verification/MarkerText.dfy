/** Lines and marker lines: splitting on newlines and the two marker patterns, character by character. */
module MarkerText {

  /** One line of a file, without its newline. */
  datatype Line = Line(text: string)

  const BLANK := Line("")

  // ----- Splitting and joining -----

  predicate OneLine(line: Line) {
    '\n' !in line.text
  }

  predicate AllOneLine(lines: seq<Line>) {
    forall i :: 0 <= i < |lines| ==> OneLine(lines[i])
  }

  function SplitLines(text: string): (lines: seq<Line>)
    ensures lines != []
  {
    if text == [] then [BLANK]
    else
      var rest := SplitLines(text[1..]);
      if text[0] == '\n' then [BLANK] + rest else [Line([text[0]] + rest[0].text)] + rest[1..]
  }

  function Join(lines: seq<Line>): string {
    if lines == [] then []
    else if |lines| == 1 then lines[0].text
    else lines[0].text + ['\n'] + Join(lines[1..])
  }

  lemma {:induction false} SplitGivesLines(text: string)
    ensures AllOneLine(SplitLines(text))
  {
    if text != [] { SplitGivesLines(text[1..]); }
  }

  lemma JoinBlankFirst(rest: seq<Line>)
    requires rest != []
    ensures Join([BLANK] + rest) == ['\n'] + Join(rest)
  {
    assert ([BLANK] + rest)[1..] == rest;
  }

  lemma JoinCharFirst(c: char, rest: seq<Line>)
    requires rest != []
    ensures Join([Line([c] + rest[0].text)] + rest[1..]) == [c] + Join(rest)
  {
    var lines := [Line([c] + rest[0].text)] + rest[1..];
    assert lines[1..] == rest[1..];
    if |rest| > 1 { assert [c] + rest[0].text + ['\n'] + Join(rest[1..]) == [c] + Join(rest); }
  }

  lemma {:induction false} JoinSplit(text: string)
    ensures Join(SplitLines(text)) == text
  {
    if text != [] {
      JoinSplit(text[1..]);
      var rest := SplitLines(text[1..]);
      assert text == [text[0]] + text[1..];
      if text[0] == '\n' {
        JoinBlankFirst(rest);
      } else {
        JoinCharFirst(text[0], rest);
      }
    }
  }

  lemma {:induction false} SplitOfLine(line: string)
    requires '\n' !in line
    ensures SplitLines(line) == [Line(line)]
  {
    if line != [] {
      SplitOfLine(line[1..]);
      assert line == [line[0]] + line[1..];
    }
  }

  lemma {:induction false} SplitOfFirst(line: string, rest: string)
    requires '\n' !in line
    ensures SplitLines(line + ['\n'] + rest) == [Line(line)] + SplitLines(rest)
  {
    var text := line + ['\n'] + rest;
    if line == [] {
      assert text[1..] == rest;
    } else {
      SplitOfFirst(line[1..], rest);
      assert text[1..] == line[1..] + ['\n'] + rest;
      assert line == [line[0]] + line[1..];
    }
  }

  lemma {:induction false} SplitJoin(lines: seq<Line>)
    requires lines != [] && AllOneLine(lines)
    ensures SplitLines(Join(lines)) == lines
  {
    assert OneLine(lines[0]);
    if |lines| == 1 {
      SplitOfLine(lines[0].text);
    } else {
      forall i | 0 <= i < |lines[1..]| ensures OneLine(lines[1..][i]) { assert OneLine(lines[i + 1]); }
      SplitJoin(lines[1..]);
      SplitOfFirst(lines[0].text, Join(lines[1..]));
    }
  }

  // ----- The marker patterns -----

  predicate Blank(c: char) { c == ' ' || c == '\t' }

  /** White space as the pattern's `\s` understands it. */
  predicate Space(c: char) {
    || c in " \t\n\r" || c == '\U{0B}' || c == '\U{0C}' || c == '\U{A0}' || c == '\U{1680}'
    || '\U{2000}' <= c <= '\U{200A}' || c == '\U{2028}' || c == '\U{2029}'
    || c == '\U{202F}' || c == '\U{205F}' || c == '\U{3000}' || c == '\U{FEFF}'
  }

  function SkipBlanks(s: string): string {
    if s != [] && Blank(s[0]) then SkipBlanks(s[1..]) else s
  }

  function SkipSpaces(s: string): string {
    if s != [] && Space(s[0]) then SkipSpaces(s[1..]) else s
  }

  predicate Starts(s: string, prefix: string) {
    |prefix| <= |s| && s[..|prefix|] == prefix
  }

  /** What follows the comment opener of a marker line, leading white space dropped. */
  function Inside(line: string): string {
    var s := SkipBlanks(line);
    if Starts(s, "<!--") then SkipSpaces(s[4..]) else []
  }

  /** The rest of a marker line once its opener is read: the name, the closer, and blanks. */
  predicate Named(s: string) {
    Starts(s, "laurencio:local") &&
    var t := SkipSpaces(s[15..]);
    Starts(t, "-->") &&
    var u := SkipBlanks(t[3..]);
    u == [] || u == ['\r']
  }

  predicate IsOpen(line: Line) {
    Named(Inside(line.text))
  }

  predicate IsClose(line: Line) {
    var s := Inside(line.text);
    Starts(s, "/") && Named(SkipSpaces(s[1..]))
  }

  // ----- The same patterns as concatenations -----

  predicate Only(s: string, chars: string) {
    forall i :: 0 <= i < |s| ==> s[i] in chars
  }

  const BLANKS := " \t"
  /** The characters of the class `\s`, one by one. */
  const WHITE_SPACE :=
    "\t\n\U{0B}\U{0C}\r \U{A0}\U{1680}\U{2000}\U{2001}\U{2002}\U{2003}\U{2004}\U{2005}\U{2006}\U{2007}" +
    "\U{2008}\U{2009}\U{200A}\U{2028}\U{2029}\U{202F}\U{205F}\U{3000}\U{FEFF}"

  lemma ClassesListed(c: char)
    ensures Space(c) <==> c in WHITE_SPACE
    ensures Blank(c) <==> c in BLANKS
  {
  }

  lemma OnlyMore(c: char, s: string, chars: string)
    requires c in chars && Only(s, chars)
    ensures Only([c] + s, chars)
  {
  }

  lemma {:induction false} SkippedBlanks(s: string) returns (a: string)
    ensures Only(a, BLANKS) && s == a + SkipBlanks(s)
  {
    a := [];
    if s != [] && Blank(s[0]) {
      var b := SkippedBlanks(s[1..]);
      ClassesListed(s[0]);
      a := [s[0]] + b;
    }
  }

  lemma {:induction false} SkippedSpaces(s: string) returns (a: string)
    ensures Only(a, WHITE_SPACE) && s == a + SkipSpaces(s)
  {
    a := [];
    if s != [] && Space(s[0]) {
      var b := SkippedSpaces(s[1..]);
      ClassesListed(s[0]);
      a := [s[0]] + b;
      OnlyMore(s[0], b, WHITE_SPACE);
    }
  }

  lemma {:induction false} BlanksSkipped(a: string, t: string)
    requires Only(a, BLANKS) && (t != [] ==> t[0] !in BLANKS)
    ensures SkipBlanks(a + t) == t
  {
    if a == [] {
      assert a + t == t;
      if t != [] { ClassesListed(t[0]); }
    } else {
      assert (a + t)[1..] == a[1..] + t;
      ClassesListed(a[0]);
      BlanksSkipped(a[1..], t);
    }
  }

  lemma {:induction false} SpacesSkipped(a: string, t: string)
    requires Only(a, WHITE_SPACE) && (t != [] ==> t[0] !in WHITE_SPACE)
    ensures SkipSpaces(a + t) == t
  {
    if a == [] {
      assert a + t == t;
      if t != [] { ClassesListed(t[0]); }
    } else {
      assert (a + t)[1..] == a[1..] + t;
      ClassesListed(a[0]);
      SpacesSkipped(a[1..], t);
    }
  }

  /** The text reads: the name, white space, the closer, blanks, and at most a carriage return. */
  predicate NamedOf(s: string, c: string, d: string, e: string) {
    && s == "laurencio:local" + (c + ("-->" + (d + e)))
    && Only(c, WHITE_SPACE) && Only(d, BLANKS) && (e == [] || e == ['\r'])
  }

  lemma NamedIsOf(s: string)
    ensures Named(s) <==> exists c, d, e :: NamedOf(s, c, d, e)
  {
    if Named(s) {
      var t := SkipSpaces(s[15..]);
      var c := SkippedSpaces(s[15..]);
      var d := SkippedBlanks(t[3..]);
      assert s == s[..15] + s[15..] && t == t[..3] + t[3..];
      assert NamedOf(s, c, d, SkipBlanks(t[3..]));
    }
    if c, d, e :| NamedOf(s, c, d, e) {
      var t := "-->" + (d + e);
      assert s[..15] == "laurencio:local" && s[15..] == c + t;
      assert t[0] == '-' && '-' !in WHITE_SPACE;
      SpacesSkipped(c, t);
      assert t[..3] == "-->" && t[3..] == d + e;
      BlanksSkipped(d, e);
    }
  }

  /** What comes before the name: blanks, the comment opener, white space. */
  predicate OpenedBy(line: string, a: string, b: string, rest: string) {
    line == a + ("<!--" + (b + rest)) && Only(a, BLANKS) && Only(b, WHITE_SPACE)
  }

  lemma InsideIsAfterTheOpener(line: string, rest: string)
    requires rest != [] && rest[0] !in WHITE_SPACE
    ensures Inside(line) == rest <==> exists a, b :: OpenedBy(line, a, b, rest)
  {
    if Inside(line) == rest {
      var s := SkipBlanks(line);
      var a := SkippedBlanks(line);
      var b := SkippedSpaces(s[4..]);
      assert s == s[..4] + s[4..];
      assert OpenedBy(line, a, b, rest);
    }
    if a, b :| OpenedBy(line, a, b, rest) {
      var s := "<!--" + (b + rest);
      assert s[0] == '<' && '<' !in BLANKS;
      BlanksSkipped(a, s);
      assert s[..4] == "<!--" && s[4..] == b + rest;
      SpacesSkipped(b, rest);
    }
  }

  /** The name and the slash are no white space, so what is left out before them is all there is. */
  lemma NameAndSlashAreSolid()
    ensures 'l' !in WHITE_SPACE && '/' !in WHITE_SPACE
  {
  }

  lemma NamedIsSolid(s: string)
    requires Named(s)
    ensures s != [] && s[0] == 'l'
  {
    assert s[..15][0] == 'l';
  }

  predicate OpeningOf(line: string, a: string, b: string, rest: string, c: string, d: string, e: string) {
    OpenedBy(line, a, b, rest) && NamedOf(rest, c, d, e)
  }

  lemma OpenLineIsOf(line: Line) returns (a: string, b: string, rest: string, c: string, d: string, e: string)
    requires IsOpen(line)
    ensures OpeningOf(line.text, a, b, rest, c, d, e)
  {
    rest := Inside(line.text);
    NamedIsOf(rest);
    NamedIsSolid(rest);
    NameAndSlashAreSolid();
    InsideIsAfterTheOpener(line.text, rest);
    a, b :| OpenedBy(line.text, a, b, rest);
    c, d, e :| NamedOf(rest, c, d, e);
  }

  lemma OpeningOfIsLine(line: Line, a: string, b: string, rest: string, c: string, d: string, e: string)
    requires OpeningOf(line.text, a, b, rest, c, d, e)
    ensures IsOpen(line)
  {
    NamedIsOf(rest);
    NamedIsSolid(rest);
    NameAndSlashAreSolid();
    InsideIsAfterTheOpener(line.text, rest);
  }

  /** A line opens a block exactly when it is made of these pieces and nothing else. */
  lemma OpenLineExactlyWhen(line: Line)
    ensures IsOpen(line) <==> exists a, b, rest, c, d, e :: OpeningOf(line.text, a, b, rest, c, d, e)
  {
    if IsOpen(line) {
      var a, b, rest, c, d, e := OpenLineIsOf(line);
    } else if a, b, rest, c, d, e :| OpeningOf(line.text, a, b, rest, c, d, e) {
      OpeningOfIsLine(line, a, b, rest, c, d, e);
    }
  }

  predicate ClosingOf(line: string, a: string, b: string, w: string, rest: string, c: string, d: string, e: string) {
    OpenedBy(line, a, b, "/" + (w + rest)) && Only(w, WHITE_SPACE) && NamedOf(rest, c, d, e)
  }

  lemma CloseLineIsOf(line: Line)
    returns (a: string, b: string, w: string, rest: string, c: string, d: string, e: string)
    requires IsClose(line)
    ensures ClosingOf(line.text, a, b, w, rest, c, d, e)
  {
    var s := Inside(line.text);
    w := SkippedSpaces(s[1..]);
    rest := SkipSpaces(s[1..]);
    assert s == s[..1] + s[1..] == "/" + (w + rest);
    NamedIsOf(rest);
    NameAndSlashAreSolid();
    InsideIsAfterTheOpener(line.text, s);
    a, b :| OpenedBy(line.text, a, b, s);
    c, d, e :| NamedOf(rest, c, d, e);
  }

  lemma ClosingOfIsLine(line: Line, a: string, b: string, w: string, rest: string, c: string, d: string, e: string)
    requires ClosingOf(line.text, a, b, w, rest, c, d, e)
    ensures IsClose(line)
  {
    var inside := "/" + (w + rest);
    NamedIsOf(rest);
    NamedIsSolid(rest);
    NameAndSlashAreSolid();
    assert inside[..1] == "/" && inside[1..] == w + rest;
    SpacesSkipped(w, rest);
    InsideIsAfterTheOpener(line.text, inside);
  }

  /** And it closes one exactly when a slash, with or without white space after it, stands before the name. */
  lemma CloseLineExactlyWhen(line: Line)
    ensures IsClose(line) <==> exists a, b, w, rest, c, d, e :: ClosingOf(line.text, a, b, w, rest, c, d, e)
  {
    if IsClose(line) {
      var a, b, w, rest, c, d, e := CloseLineIsOf(line);
    } else if a, b, w, rest, c, d, e :| ClosingOf(line.text, a, b, w, rest, c, d, e) {
      ClosingOfIsLine(line, a, b, w, rest, c, d, e);
    }
  }

  const NAME_AND_END := "laurencio:local -->"
  const OPEN_MARKER := Line("<!-- " + NAME_AND_END)
  const CLOSE_MARKER := Line("<!-- " + ("/" + NAME_AND_END))

  lemma NamedLiteral()
    ensures Named(NAME_AND_END)
  {
    var s := NAME_AND_END;
    assert s[..15] == "laurencio:local";
    assert s[15..] == " -->" && " -->"[1..] == "-->";
    assert SkipSpaces(" -->") == SkipSpaces("-->") == "-->";
    assert "-->"[..3] == "-->" && "-->"[3..] == [];
  }

  lemma InsideLiteral(rest: string)
    requires rest != [] && !Space(rest[0])
    ensures Inside("<!-- " + rest) == rest
  {
    var s := "<!-- " + rest;
    assert SkipBlanks(s) == s && s[..4] == "<!--";
    assert s[4..] == " " + rest && s[4..][1..] == rest;
    assert SkipSpaces(s[4..]) == SkipSpaces(rest) == rest;
  }

  lemma Exclusive(line: Line)
    ensures !(IsOpen(line) && IsClose(line))
  {
    var s := Inside(line.text);
    assert Named(s) ==> s[..15][0] == 'l';
    assert Starts(s, "/") ==> s[..1][0] == '/';
  }

  lemma CloseOf(rest: string)
    requires Named(rest) && rest != [] && !Space(rest[0])
    ensures IsClose(Line("<!-- " + ("/" + rest)))
  {
    var s := "/" + rest;
    InsideLiteral(s);
    assert s[1..] == rest && s[..1] == "/";
    assert SkipSpaces(rest) == rest;
  }

  lemma BlankIsPlain()
    ensures !IsOpen(BLANK) && !IsClose(BLANK)
  {
    assert Inside(BLANK.text) == [];
  }

  lemma LiteralsAreMarkers()
    ensures IsOpen(OPEN_MARKER) && IsClose(CLOSE_MARKER)
  {
    NamedLiteral();
    InsideLiteral(NAME_AND_END);
    CloseOf(NAME_AND_END);
  }

  // ----- The patterns as one classification -----

  datatype Kind = Plain | Open | Close

  /** A way of telling marker lines apart; the laws about documents hold for any of them. */
  type Pattern = Line -> Kind

  /** The classification agrees with the lines the code itself writes. */
  predicate Sane(k: Pattern) {
    && k(BLANK) == Plain && k(OPEN_MARKER) == Open && k(CLOSE_MARKER) == Close
    && OneLine(OPEN_MARKER) && OneLine(CLOSE_MARKER)
  }

  function LaurencioKind(line: Line): (k: Kind)
    ensures k == Open <==> IsOpen(line)
    ensures k == Close <==> IsClose(line)
  {
    Exclusive(line);
    if IsOpen(line) then Open else if IsClose(line) then Close else Plain
  }

  /** No line is both markers, a blank line is neither, and the literals the code writes are one each. */
  lemma LaurencioMarkersAreSane()
    ensures Sane(LaurencioKind)
  {
    LiteralsAreMarkers();
    BlankIsPlain();
  }
}
