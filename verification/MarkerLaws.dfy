/** The marker laws: nothing is lost, a round trip is exact, bodies do not leak, a download settles. */
module MarkerLaws {
  import opened MarkerText
  import opened MarkerDocs
  import opened Markers
  import opened MarkerReinsert

  // ----- No loss, for any projection -----

  lemma TwoPieces(line: Line, body: seq<Line>, ps: seq<Piece>)
    ensures KeptLines([Added(body)] + ([Kept(line)] + ps)) == [line] + KeptLines(ps)
    ensures AddedBodies([Added(body)] + ([Kept(line)] + ps)) == [body] + AddedBodies(ps)
  {
    PieceCons(Kept(line), ps);
    PieceCons(Added(body), [Kept(line)] + ps);
  }

  lemma ThreePieces(line: Line, body: seq<Line>, ps: seq<Piece>)
    ensures var qs := [Kept(line)] + ([Added(body)] + ([Glue(CLOSE_MARKER)] + ps));
            KeptLines(qs) == [line] + KeptLines(ps) && AddedBodies(qs) == [body] + AddedBodies(ps)
  {
    PieceCons(Glue(CLOSE_MARKER), ps);
    PieceCons(Added(body), [Glue(CLOSE_MARKER)] + ps);
    PieceCons(Kept(line), [Added(body)] + ([Glue(CLOSE_MARKER)] + ps));
  }

  /** What one step of inserting adds, by the branch it takes. */
  lemma InsertStep(k: Pattern, line: Line, rest: seq<Line>, open: bool, bodies: seq<seq<Line>>)
    ensures var now := Insert(k, [line] + rest, open, bodies);
            if bodies != [] && k(line) == Close && open then
              var r := Insert(k, rest, false, bodies[1..]);
              now == ([Added(bodies[0])] + ([Kept(line)] + r.0), r.1)
            else if bodies != [] && k(line) == Open && AllPlain(k, rest) then
              var r := Insert(k, rest, false, bodies[1..]);
              now == ([Kept(line)] + ([Added(bodies[0])] + ([Glue(CLOSE_MARKER)] + r.0)), r.1)
            else
              var r := Insert(k, rest, k(line) == Open || (open && k(line) == Plain), bodies);
              now == ([Kept(line)] + r.0, r.1)
  {
    assert ([line] + rest)[0] == line && ([line] + rest)[1..] == rest;
  }

  lemma {:induction false} InsertKeepsLines(k: Pattern, lines: seq<Line>, open: bool, bodies: seq<seq<Line>>)
    ensures KeptLines(Insert(k, lines, open, bodies).0) == lines
  {
    if lines != [] {
      var line, rest := lines[0], lines[1..];
      assert lines == [line] + rest;
      InsertStep(k, line, rest, open, bodies);
      if bodies != [] && k(line) == Close && open {
        InsertKeepsLines(k, rest, false, bodies[1..]);
        TwoPieces(line, bodies[0], Insert(k, rest, false, bodies[1..]).0);
      } else if bodies != [] && k(line) == Open && AllPlain(k, rest) {
        InsertKeepsLines(k, rest, false, bodies[1..]);
        ThreePieces(line, bodies[0], Insert(k, rest, false, bodies[1..]).0);
      } else {
        var open' := k(line) == Open || (open && k(line) == Plain);
        InsertKeepsLines(k, rest, open', bodies);
        PieceCons(Kept(line), Insert(k, rest, open', bodies).0);
      }
    }
  }

  lemma {:induction false} InsertPlacesBodies(k: Pattern, lines: seq<Line>, open: bool, bodies: seq<seq<Line>>)
    ensures AddedBodies(Insert(k, lines, open, bodies).0) + Insert(k, lines, open, bodies).1 == bodies
  {
    if lines != [] {
      var line, rest := lines[0], lines[1..];
      assert lines == [line] + rest;
      InsertStep(k, line, rest, open, bodies);
      if bodies != [] && k(line) == Close && open {
        InsertPlacesBodies(k, rest, false, bodies[1..]);
        var r := Insert(k, rest, false, bodies[1..]);
        TwoPieces(line, bodies[0], r.0);
        FirstOfBodies(bodies, AddedBodies(r.0), r.1);
      } else if bodies != [] && k(line) == Open && AllPlain(k, rest) {
        InsertPlacesBodies(k, rest, false, bodies[1..]);
        var r := Insert(k, rest, false, bodies[1..]);
        ThreePieces(line, bodies[0], r.0);
        FirstOfBodies(bodies, AddedBodies(r.0), r.1);
      } else {
        var open' := k(line) == Open || (open && k(line) == Plain);
        InsertPlacesBodies(k, rest, open', bodies);
        PieceCons(Kept(line), Insert(k, rest, open', bodies).0);
      }
    }
  }

  lemma FirstOfBodies(bodies: seq<seq<Line>>, placed: seq<seq<Line>>, left: seq<seq<Line>>)
    requires bodies != [] && placed + left == bodies[1..]
    ensures ([bodies[0]] + placed) + left == bodies
  {
    assert ([bodies[0]] + placed) + left == [bodies[0]] + (placed + left);
  }

  /** The last piece is a line of the projection or the close line the code adds. */
  predicate EndsKept(ps: seq<Piece>) {
    ps != [] && (ps[|ps| - 1].Kept? || ps[|ps| - 1] == Glue(CLOSE_MARKER))
  }

  lemma {:induction false} InsertEndsKept(k: Pattern, lines: seq<Line>, open: bool, bodies: seq<seq<Line>>)
    requires lines != []
    ensures EndsKept(Insert(k, lines, open, bodies).0)
  {
    if |lines| > 1 {
      var line, rest := lines[0], lines[1..];
      InsertEndsKept(k, rest, false, if bodies == [] then [] else bodies[1..]);
      InsertEndsKept(k, rest, k(line) == Open || (open && k(line) == Plain), bodies);
    }
  }

  /** A line the code adds is a marker or blank. */
  predicate GlueIsMarkup(ps: seq<Piece>) {
    forall i :: 0 <= i < |ps| && ps[i].Glue? ==> ps[i].line in {OPEN_MARKER, CLOSE_MARKER, BLANK}
  }

  lemma {:induction false} InsertGluesMarkup(k: Pattern, lines: seq<Line>, open: bool, bodies: seq<seq<Line>>)
    ensures GlueIsMarkup(Insert(k, lines, open, bodies).0)
  {
    if lines != [] {
      var line, rest := lines[0], lines[1..];
      if bodies != [] && k(line) == Close && open {
        InsertGluesMarkup(k, rest, false, bodies[1..]);
      } else if bodies != [] && k(line) == Open && AllPlain(k, rest) {
        InsertGluesMarkup(k, rest, false, bodies[1..]);
      } else {
        InsertGluesMarkup(k, rest, k(line) == Open || (open && k(line) == Plain), bodies);
      }
    }
  }

  function BlockPieces(out: seq<Line>, body: seq<Line>): seq<Piece> {
    (if out != [] && Last(out) != BLANK then [Glue(BLANK)] else []) +
    ([Glue(OPEN_MARKER)] + ([Added(body)] + ([Glue(CLOSE_MARKER)] + [])))
  }

  lemma MarkedPieces(body: seq<Line>)
    ensures var ps := [Glue(OPEN_MARKER)] + ([Added(body)] + ([Glue(CLOSE_MARKER)] + []));
            && Flatten(ps) == [OPEN_MARKER] + body + [CLOSE_MARKER]
            && KeptLines(ps) == [] && AddedBodies(ps) == [body]
  {
    PieceCons(Glue(CLOSE_MARKER), []);
    PieceCons(Added(body), [Glue(CLOSE_MARKER)] + []);
    PieceCons(Glue(OPEN_MARKER), [Added(body)] + ([Glue(CLOSE_MARKER)] + []));
    Associate([OPEN_MARKER], body, [CLOSE_MARKER]);
  }

  lemma BlockPiecesFlatten(out: seq<Line>, body: seq<Line>)
    ensures out + Flatten(BlockPieces(out, body)) == WithBlock(out, body)
    ensures KeptLines(BlockPieces(out, body)) == [] && AddedBodies(BlockPieces(out, body)) == [body]
  {
    MarkedPieces(body);
    var ps := [Glue(OPEN_MARKER)] + ([Added(body)] + ([Glue(CLOSE_MARKER)] + []));
    PieceCons(Glue(BLANK), ps);
    assert [] + ps == ps;
  }

  lemma ConcatPieces(a: seq<Piece>, b: seq<Piece>)
    ensures Flatten(a + b) == Flatten(a) + Flatten(b)
    ensures KeptLines(a + b) == KeptLines(a) + KeptLines(b)
    ensures AddedBodies(a + b) == AddedBodies(a) + AddedBodies(b)
  {
    FlattenConcat(a, b);
    KeptConcat(a, b);
    AddedConcat(a, b);
  }

  lemma WithBlockPieces(ps: seq<Piece>, body: seq<Line>)
    ensures var qs := ps + BlockPieces(Flatten(ps), body);
            && Flatten(qs) == WithBlock(Flatten(ps), body)
            && KeptLines(qs) == KeptLines(ps) && AddedBodies(qs) == AddedBodies(ps) + [body]
  {
    BlockPiecesFlatten(Flatten(ps), body);
    ConcatPieces(ps, BlockPieces(Flatten(ps), body));
  }

  lemma TakeFirst(done: seq<seq<Line>>, left: seq<seq<Line>>)
    requires left != []
    ensures (done + [left[0]]) + left[1..] == done + left
  {
  }

  lemma BlockGluesMarkup(out: seq<Line>, body: seq<Line>)
    ensures GlueIsMarkup(BlockPieces(out, body))
  {
  }

  lemma GlueOfBoth(a: seq<Piece>, b: seq<Piece>)
    requires GlueIsMarkup(a) && GlueIsMarkup(b)
    ensures GlueIsMarkup(a + b)
  {
  }

  lemma OneMoreBlock(ps: seq<Piece>, body: seq<Line>) returns (qs: seq<Piece>)
    ensures Flatten(qs) == WithBlock(Flatten(ps), body)
    ensures KeptLines(qs) == KeptLines(ps) && AddedBodies(qs) == AddedBodies(ps) + [body]
    ensures GlueIsMarkup(ps) ==> GlueIsMarkup(qs)
  {
    qs := ps + BlockPieces(Flatten(ps), body);
    WithBlockPieces(ps, body);
    BlockGluesMarkup(Flatten(ps), body);
    if GlueIsMarkup(ps) { GlueOfBoth(ps, BlockPieces(Flatten(ps), body)); }
  }

  lemma {:induction false} WithBlocksPieces(ps: seq<Piece>, left: seq<seq<Line>>) returns (qs: seq<Piece>)
    ensures Flatten(qs) == WithBlocks(Flatten(ps), left)
    ensures KeptLines(qs) == KeptLines(ps) && AddedBodies(qs) == AddedBodies(ps) + left
    ensures GlueIsMarkup(ps) ==> GlueIsMarkup(qs)
    decreases |left|
  {
    if left == [] { return ps; }
    var more := OneMoreBlock(ps, left[0]);
    qs := WithBlocksPieces(more, left[1..]);
    TakeFirst(AddedBodies(ps), left);
  }

  lemma SnocPiece(core: seq<Piece>, last: Piece)
    requires !last.Added?
    ensures Flatten(core + [last]) == Flatten(core) + [last.line]
    ensures KeptLines(core + [last]) == KeptLines(core) + (if last.Kept? then [last.line] else [])
    ensures AddedBodies(core + [last]) == AddedBodies(core)
  {
    PieceCons(last, []);
    assert [last] + [] == [last];
    ConcatPieces(core, [last]);
  }

  lemma GluePrefix(core: seq<Piece>, last: Piece)
    requires GlueIsMarkup(core + [last])
    ensures GlueIsMarkup(core)
  {
    forall i | 0 <= i < |core| ensures core[i] == (core + [last])[i] {}
  }

  lemma TrailingPieces(core: seq<Piece>, left: seq<seq<Line>>) returns (qs: seq<Piece>)
    requires left != []
    ensures Flatten(qs) == Appended(Flatten(core) + [BLANK], left)
    ensures KeptLines(qs) == KeptLines(core) + [BLANK] && AddedBodies(qs) == AddedBodies(core) + left
    ensures GlueIsMarkup(core) ==> GlueIsMarkup(qs)
  {
    var more := WithBlocksPieces(core, left);
    SnocPiece(more, Kept(BLANK));
    qs := more + [Kept(BLANK)];
    var out := Flatten(core) + [BLANK];
    assert out[..|out| - 1] == Flatten(core) && Last(out) == BLANK;
  }

  /** Leftovers go in front of a trailing blank line, which stays the last line. */
  lemma AppendedPieces(core: seq<Piece>, last: Piece, left: seq<seq<Line>>) returns (qs: seq<Piece>)
    requires last.Kept? || last == Glue(CLOSE_MARKER)
    ensures Flatten(qs) == Appended(Flatten(core + [last]), left)
    ensures KeptLines(qs) == KeptLines(core + [last]) && AddedBodies(qs) == AddedBodies(core + [last]) + left
    ensures GlueIsMarkup(core + [last]) ==> GlueIsMarkup(qs)
  {
    SnocPiece(core, last);
    if left == [] {
      qs := core + [last];
    } else if last == Kept(BLANK) {
      qs := TrailingPieces(core, left);
      if GlueIsMarkup(core + [last]) { GluePrefix(core, last); }
    } else {
      qs := WithBlocksPieces(core + [last], left);
      assert Last(Flatten(core) + [last.line]) == last.line;
    }
  }

  /**
    * Nothing is lost, however damaged the projection: the result is made of all projection lines in
    * order, every block body as one run in order, and marker or blank lines the code adds.
    */
  lemma NothingIsLost(k: Pattern, lines: seq<Line>, bodies: seq<seq<Line>>) returns (ps: seq<Piece>)
    requires lines != []
    ensures Flatten(ps) == Reinserted(k, lines, bodies)
    ensures KeptLines(ps) == lines && AddedBodies(ps) == bodies
    ensures GlueIsMarkup(ps)
  {
    InsertGluesMarkup(k, lines, false, bodies);
    InsertKeepsLines(k, lines, false, bodies);
    InsertPlacesBodies(k, lines, false, bodies);
    InsertEndsKept(k, lines, false, bodies);
    var (inserted, left) := Insert(k, lines, false, bodies);
    var n := |inserted| - 1;
    assert inserted == inserted[..n] + [inserted[n]];
    ps := AppendedPieces(inserted[..n], inserted[n], left);
  }

  // ----- Insertion into a document -----

  lemma {:induction false} InsertThroughBody(k: Pattern, body: seq<Line>, rest: seq<Line>, bodies: seq<seq<Line>>)
    requires AllPlain(k, body)
    ensures Flatten(Insert(k, body + rest, true, bodies).0) == body + Flatten(Insert(k, rest, true, bodies).0)
    ensures Insert(k, body + rest, true, bodies).1 == Insert(k, rest, true, bodies).1
  {
    if body == [] {
      assert body + rest == rest;
    } else {
      assert (body + rest)[1..] == body[1..] + rest && (body + rest)[0] == body[0];
      InsertThroughBody(k, body[1..], rest, bodies);
      PieceCons(Kept(body[0]), Insert(k, body[1..] + rest, true, bodies).0);
    }
  }

  lemma InsertCons(k: Pattern, line: Line, rest: seq<Line>, open: bool, bodies: seq<seq<Line>>)
    requires !(k(line) == Open && AllPlain(k, rest)) && !(k(line) == Close && open)
    ensures var r, now := Insert(k, rest, k(line) == Open || (open && k(line) == Plain), bodies),
                        Insert(k, [line] + rest, open, bodies);
            Flatten(now.0) == [line] + Flatten(r.0) && now.1 == r.1
  {
    assert ([line] + rest)[1..] == rest;
    PieceCons(Kept(line), Insert(k, rest, k(line) == Open || (open && k(line) == Plain), bodies).0);
  }

  lemma InsertAtClose(k: Pattern, line: Line, rest: seq<Line>, bodies: seq<seq<Line>>)
    requires k(line) == Close && bodies != []
    ensures var r, now := Insert(k, rest, false, bodies[1..]), Insert(k, [line] + rest, true, bodies);
            Flatten(now.0) == bodies[0] + ([line] + Flatten(r.0)) && now.1 == r.1
  {
    assert ([line] + rest)[1..] == rest;
    var ps := Insert(k, rest, false, bodies[1..]).0;
    PieceCons(Kept(line), ps);
    PieceCons(Added(bodies[0]), [Kept(line)] + ps);
  }

  /** A whole block: its first waiting body goes in front of the close line. */
  lemma InsertAtBlock(k: Pattern, open: Line, body: seq<Line>, close: Line, rest: seq<Line>, bodies: seq<seq<Line>>)
    requires k(open) == Open && AllPlain(k, body) && k(close) == Close && bodies != []
    ensures var r := Insert(k, rest, false, bodies[1..]);
            var now := Insert(k, [open] + (body + ([close] + rest)), false, bodies);
            Flatten(now.0) == [open] + ((body + bodies[0]) + ([close] + Flatten(r.0))) && now.1 == r.1
  {
    var tail := [close] + rest;
    InsertAtClose(k, close, rest, bodies);
    InsertThroughBody(k, body, tail, bodies);
    assert (body + tail)[|body|] == close;
    InsertCons(k, open, body + tail, false, bodies);
    Associate(body, bodies[0], [close] + Flatten(Insert(k, rest, false, bodies[1..]).0));
  }

  lemma Associate(a: seq<Line>, b: seq<Line>, c: seq<Line>)
    ensures a + (b + c) == (a + b) + c
  {
  }

  function Unplaced(d: Doc, bodies: seq<seq<Line>>): seq<seq<Line>> {
    if |Bodies(d)| <= |bodies| then bodies[|Bodies(d)|..] else []
  }

  /** In a well-formed projection each body lands at the end of its own block, first come first served. */
  lemma {:induction false} InsertFills(k: Pattern, d: Doc, bodies: seq<seq<Line>>)
    requires Valid(k, d)
    ensures Flatten(Insert(k, Render(d), false, bodies).0) == Render(Filled(d, bodies))
    ensures Insert(k, Render(d), false, bodies).1 == Unplaced(d, bodies)
  {
    if bodies == [] {
      InsertNothing(k, Render(d), false);
      FillNothing(d);
    } else {
      match d
      case Done =>
      case Text(line, rest) =>
        InsertFills(k, rest, bodies);
        InsertCons(k, line, Render(rest), false, bodies);
      case Block(open, body, close, rest) =>
        InsertFills(k, rest, bodies[1..]);
        InsertAtBlock(k, open, body, close, Render(rest), bodies);
    }
  }

  lemma {:induction false} FillNothing(d: Doc)
    ensures Filled(d, []) == d
  {
    if d.Text? { FillNothing(d.rest); }
  }

  // ----- From documents back to texts -----

  predicate AllLines(bodies: seq<seq<Line>>) {
    forall i :: 0 <= i < |bodies| ==> AllOneLine(bodies[i])
  }

  /** Every line of the document is a single line. */
  predicate LinesOf(d: Doc) {
    match d
    case Done => true
    case Text(line, rest) => OneLine(line) && LinesOf(rest)
    case Block(open, body, close, rest) => OneLine(open) && AllOneLine(body) && OneLine(close) && LinesOf(rest)
  }

  lemma {:induction false} RenderLines(d: Doc)
    ensures AllOneLine(Render(d)) <==> LinesOf(d)
  {
    match d
    case Done =>
    case Text(line, rest) =>
      RenderLines(rest);
      ConsLines(line, Render(rest));
    case Block(open, body, close, rest) =>
      RenderLines(rest);
      ConsLines(close, Render(rest));
      ConcatLines(body, [close] + Render(rest));
      ConsLines(open, body + ([close] + Render(rest)));
  }

  lemma ConsLines(line: Line, rest: seq<Line>)
    ensures AllOneLine([line] + rest) <==> OneLine(line) && AllOneLine(rest)
  {
    ConcatLines([line], rest);
    assert [line][0] == line;
  }

  lemma ConcatLines(a: seq<Line>, b: seq<Line>)
    ensures AllOneLine(a + b) <==> AllOneLine(a) && AllOneLine(b)
  {
    forall i | 0 <= i < |a| ensures (a + b)[i] == a[i] {}
    forall i | 0 <= i < |b| ensures (a + b)[|a| + i] == b[i] {}
  }

  /** A document of single lines is what its text splits into, so equal texts are equal documents. */
  lemma TextDetermines(k: Pattern, d: Doc, text: string)
    requires Valid(k, d) && LinesOf(d) && d != Done
    ensures text == Join(Render(d)) <==> SplitLines(text) == Render(d)
  {
    RenderLines(d);
    SplitJoin(Render(d));
    JoinSplit(text);
  }

  lemma SplitHasLines(d: Doc, text: string)
    requires Render(d) == SplitLines(text)
    ensures LinesOf(d) && d != Done && Join(Render(d)) == text
  {
    SplitGivesLines(text);
    RenderLines(d);
    JoinSplit(text);
  }

  lemma {:induction false} EmptiedLines(d: Doc)
    requires LinesOf(d)
    ensures LinesOf(Emptied(d)) && (d != Done ==> Emptied(d) != Done) && AllLines(Bodies(d))
  {
    if d != Done { EmptiedLines(d.rest); }
  }

  lemma {:induction false} FilledLines(d: Doc, bodies: seq<seq<Line>>)
    requires LinesOf(d) && AllLines(bodies)
    ensures LinesOf(Filled(d, bodies)) && (d != Done ==> Filled(d, bodies) != Done)
  {
    match d
    case Done =>
    case Text(_, rest) => FilledLines(rest, bodies);
    case Block(_, body, _, rest) =>
      if bodies != [] {
        ConcatLines(body, bodies[0]);
        FilledLines(rest, bodies[1..]);
      }
  }

  /** What the parser keeps of a body: everything, except that one blank line becomes none. */
  function Remembered(body: seq<Line>): seq<Line> {
    if body == [BLANK] then [] else body
  }

  lemma InnerOfJoin(body: seq<Line>)
    requires AllOneLine(body)
    ensures Inner(Join(body)) == Remembered(body)
  {
    if |body| >= 2 { assert Join(body)[|body[0].text|] == '\n'; }
    if body != [] { SplitJoin(body); }
  }

  function RememberedAll(bodies: seq<seq<Line>>): seq<seq<Line>> {
    seq(|bodies|, i requires 0 <= i < |bodies| => Remembered(bodies[i]))
  }

  lemma InnersCons(b: LocalBlock, blocks: seq<LocalBlock>)
    ensures Inners([b] + blocks) == [Inner(b.content)] + Inners(blocks)
  {
  }

  lemma RememberedCons(body: seq<Line>, bodies: seq<seq<Line>>)
    ensures RememberedAll([body] + bodies) == [Remembered(body)] + RememberedAll(bodies)
  {
  }

  lemma {:induction false} ParsedInners(d: Doc, i: nat)
    requires LinesOf(d)
    ensures Inners(BlocksAt(d, i)) == RememberedAll(Bodies(d))
  {
    match d
    case Done =>
    case Text(_, rest) => ParsedInners(rest, i + 1);
    case Block(_, body, _, rest) =>
      var j := i + |body| + 2;
      ParsedInners(rest, j);
      InnerOfJoin(body);
      InnersCons(LocalBlock(i + 1, j, Join(body)), BlocksAt(rest, j));
      RememberedCons(body, Bodies(rest));
  }

  lemma {:induction false} BodiesArePlain(k: Pattern, d: Doc)
    requires Valid(k, d)
    ensures forall i :: 0 <= i < |Bodies(d)| ==> AllPlain(k, Bodies(d)[i])
  {
    if d != Done { BodiesArePlain(k, d.rest); }
  }

  // ----- The laws on texts -----

  /** `StripLocalBlocks` accepts the text and answers `stripped`. */
  ghost predicate StripsTo(k: Pattern, text: string, stripped: string) {
    exists d :: Valid(k, d) && Render(d) == SplitLines(text) && stripped == Join(Render(Emptied(d)))
  }

  lemma RememberedIsExact(bodies: seq<seq<Line>>)
    ensures RememberedAll(bodies) == bodies <==> forall i :: 0 <= i < |bodies| ==> bodies[i] != [BLANK]
  {
    var all := RememberedAll(bodies);
    assert forall i :: 0 <= i < |bodies| ==> (all[i] == bodies[i] <==> bodies[i] != [BLANK]);
  }

  /** The text re-insertion gives for the emptied document: that document, filled. */
  lemma ReinsertedIsFilled(k: Pattern, d: Doc, local: Doc)
    requires Valid(k, d) && LinesOf(d) && d != Done && Valid(k, local) && LinesOf(local)
    requires |Bodies(local)| <= |Bodies(d)|
    ensures var bodies := RememberedAll(Bodies(local));
            && ReinsertedText(k, Join(Render(d)), BlocksAt(local, 0)) == Join(Render(Filled(d, bodies)))
            && Valid(k, Filled(d, bodies)) && LinesOf(Filled(d, bodies)) && Filled(d, bodies) != Done
            && Emptied(Filled(d, bodies)) == Emptied(d)
  {
    var bodies := RememberedAll(Bodies(local));
    LocalBodies(k, local);
    TextDetermines(k, d, Join(Render(d)));
    InsertFills(k, d, bodies);
    FilledFacts(k, d, bodies);
    FilledLines(d, bodies);
    FillNothing(d);
  }

  /**
    * Round trip: taking a well-formed file's blocks out and putting them back restores the file
    * exactly when no block consists of one blank line.
    */
  lemma RoundTripExactlyWhen(k: Pattern, text: string, d: Doc)
    requires Valid(k, d) && Render(d) == SplitLines(text)
    ensures ReinsertedText(k, Join(Render(Emptied(d))), BlocksAt(d, 0)) == text <==>
              forall i :: 0 <= i < |Bodies(d)| ==> Bodies(d)[i] != [BLANK]
  {
    var bodies := RememberedAll(Bodies(d));
    SplitHasLines(d, text);
    EmptiedLines(d);
    EmptiedFacts(k, d);
    FillEmptied(d, bodies);
    RememberedIsExact(Bodies(d));
    ReinsertedIsFilled(k, Emptied(d), d);
    TextDetermines(k, Filled(Emptied(d), bodies), text);
    if Render(Filled(Emptied(d), bodies)) == Render(d) { RenderInjective(k, Filled(Emptied(d), bodies), d); }
  }

  /** Non-interference: two files upload as the same text exactly when they differ only inside bodies. */
  lemma SameUploadExactlyWhen(k: Pattern, a: string, d: Doc, b: string, e: Doc)
    requires Valid(k, d) && Render(d) == SplitLines(a) && Valid(k, e) && Render(e) == SplitLines(b)
    ensures Join(Render(Emptied(d))) == Join(Render(Emptied(e))) <==> Emptied(d) == Emptied(e)
  {
    SplitHasLines(d, a);
    SplitHasLines(e, b);
    EmptiedLines(d);
    EmptiedLines(e);
    EmptiedFacts(k, d);
    EmptiedFacts(k, e);
    TextDetermines(k, Emptied(d), Join(Render(Emptied(e))));
    TextDetermines(k, Emptied(e), Join(Render(Emptied(e))));
    if Render(Emptied(d)) == Render(Emptied(e)) { RenderInjective(k, Emptied(d), Emptied(e)); }
  }

  // ----- Settling -----

  lemma {:induction false} CountBlocks(k: Pattern, out: seq<Line>, left: seq<seq<Line>>)
    requires Sane(k) && forall i :: 0 <= i < |left| ==> AllPlain(k, left[i])
    ensures CountOpens(k, WithBlocks(out, left)) == CountOpens(k, out) + |left|
    decreases |left|
  {
    if left != [] {
      var glue: seq<Line> := if out != [] && Last(out) != BLANK then [BLANK] else [];
      CountPlain(k, left[0]);
      CountPlain(k, glue);
      CountConcat(k, [OPEN_MARKER] + left[0], [CLOSE_MARKER]);
      CountConcat(k, [OPEN_MARKER], left[0]);
      CountConcat(k, out + glue, [OPEN_MARKER] + left[0] + [CLOSE_MARKER]);
      CountConcat(k, out, glue);
      CountBlocks(k, WithBlock(out, left[0]), left[1..]);
    }
  }

  lemma CountAppended(k: Pattern, out: seq<Line>, left: seq<seq<Line>>)
    requires Sane(k) && forall i :: 0 <= i < |left| ==> AllPlain(k, left[i])
    ensures CountOpens(k, Appended(out, left)) == CountOpens(k, out) + |left|
  {
    if left != [] {
      CountBlocks(k, out, left);
      if out != [] && Last(out) == BLANK {
        var core := out[..|out| - 1];
        assert out == core + [BLANK];
        CountBlocks(k, core, left);
        CountConcat(k, core, [BLANK]);
        CountConcat(k, WithBlocks(core, left), [BLANK]);
      }
    }
  }

  lemma {:induction false} WithBlocksLines(out: seq<Line>, left: seq<seq<Line>>)
    requires AllOneLine(out) && AllLines(left) && OneLine(OPEN_MARKER) && OneLine(CLOSE_MARKER)
    ensures AllOneLine(WithBlocks(out, left))
    decreases |left|
  {
    if left != [] {
      var glue: seq<Line> := if out != [] && Last(out) != BLANK then [BLANK] else [];
      ConcatLines([OPEN_MARKER] + left[0], [CLOSE_MARKER]);
      ConcatLines([OPEN_MARKER], left[0]);
      ConcatLines(out + glue, [OPEN_MARKER] + left[0] + [CLOSE_MARKER]);
      ConcatLines(out, glue);
      WithBlocksLines(WithBlock(out, left[0]), left[1..]);
    }
  }

  lemma AppendedLines(out: seq<Line>, left: seq<seq<Line>>)
    requires AllOneLine(out) && AllLines(left) && OneLine(OPEN_MARKER) && OneLine(CLOSE_MARKER)
    ensures AllOneLine(Appended(out, left))
  {
    if left != [] {
      if out != [] && Last(out) == BLANK {
        var core := out[..|out| - 1];
        assert out == core + [BLANK];
        ConcatLines(core, [BLANK]);
        WithBlocksLines(core, left);
        ConcatLines(WithBlocks(core, left), [BLANK]);
      } else {
        WithBlocksLines(out, left);
      }
    }
  }

  /** The remote text is one a download can settle on: well formed, empty pairs, enough of them. */
  ghost predicate Settleable(k: Pattern, remote: string, blocks: nat) {
    exists d :: Valid(k, d) && Render(d) == SplitLines(remote) && EmptyPairs(d) && |Bodies(d)| >= blocks
  }

  lemma SettlesIfSettleable(k: Pattern, remote: string, d: Doc, local: Doc)
    requires Valid(k, local) && LinesOf(local)
    requires Valid(k, d) && Render(d) == SplitLines(remote) && EmptyPairs(d) && |Bodies(d)| >= |Bodies(local)|
    ensures StripsTo(k, ReinsertedText(k, remote, BlocksAt(local, 0)), remote)
  {
    SplitHasLines(d, remote);
    EmptiedFacts(k, d);
    ReinsertedIsFilled(k, d, local);
    var filled := Filled(d, RememberedAll(Bodies(local)));
    TextDetermines(k, filled, Join(Render(filled)));
    assert StripsTo(k, Join(Render(filled)), remote);
  }

  /** Bodies left without a pair would add pairs the projection does not have. */
  lemma AllArePlaced(k: Pattern, d: Doc, bodies: seq<seq<Line>>, e: Doc)
    requires Sane(k) && Valid(k, d) && LinesOf(d) && d != Done && Valid(k, e)
    requires AllLines(bodies) && forall i :: 0 <= i < |bodies| ==> AllPlain(k, bodies[i])
    requires Render(e) == SplitLines(Join(Reinserted(k, Render(d), bodies))) && |Bodies(e)| == |Bodies(d)|
    ensures |bodies| <= |Bodies(d)|
  {
    var filled, left := Filled(d, bodies), Unplaced(d, bodies);
    InsertFills(k, d, bodies);
    FilledFacts(k, d, bodies);
    FilledLines(d, bodies);
    RenderLines(filled);
    AppendedLines(Render(filled), left);
    FirstLine(filled);
    SplitJoinAppended(Render(filled), left);
    CountAppended(k, Render(filled), left);
    CountRender(k, filled);
    CountRender(k, e);
    FilledCount(d, bodies);
  }

  /** If the stripped result is the remote text, that text is the stripped document. */
  lemma StrippedIsDocument(k: Pattern, out: string, remote: string, e: Doc)
    requires Valid(k, e) && Render(e) == SplitLines(out) && remote == Join(Render(Emptied(e)))
    ensures var d := Emptied(e);
            && Valid(k, d) && LinesOf(d) && d != Done && Render(d) == SplitLines(remote)
            && EmptyPairs(d) && |Bodies(d)| == |Bodies(e)|
  {
    SplitHasLines(e, out);
    EmptiedLines(e);
    EmptiedFacts(k, e);
    TextDetermines(k, Emptied(e), remote);
  }

  lemma LocalBodies(k: Pattern, local: Doc)
    requires Valid(k, local) && LinesOf(local)
    ensures var bodies := RememberedAll(Bodies(local));
            && Inners(BlocksAt(local, 0)) == bodies && |BlocksAt(local, 0)| == |bodies|
            && AllLines(bodies) && forall i :: 0 <= i < |bodies| ==> AllPlain(k, bodies[i])
  {
    ParsedInners(local, 0);
    BodiesArePlain(k, local);
    EmptiedLines(local);
    assert |Inners(BlocksAt(local, 0))| == |BlocksAt(local, 0)|;
  }

  lemma SettleableIfSettles(k: Pattern, remote: string, local: Doc)
    requires Sane(k) && Valid(k, local) && LinesOf(local)
    requires StripsTo(k, ReinsertedText(k, remote, BlocksAt(local, 0)), remote)
    ensures Settleable(k, remote, |Bodies(local)|)
  {
    var out := ReinsertedText(k, remote, BlocksAt(local, 0));
    var e :| Valid(k, e) && Render(e) == SplitLines(out) && remote == Join(Render(Emptied(e)));
    StrippedIsDocument(k, out, remote, e);
    LocalBodies(k, local);
    if BlocksAt(local, 0) != [] {
      AllArePlaced(k, Emptied(e), RememberedAll(Bodies(local)), e);
    }
  }

  lemma SplitJoinAppended(out: seq<Line>, left: seq<seq<Line>>)
    requires out != [] && AllOneLine(Appended(out, left))
    ensures SplitLines(Join(Appended(out, left))) == Appended(out, left)
  {
    if Appended(out, left) == [] { WithBlocksNotEmpty(out, left); }
    SplitJoin(Appended(out, left));
  }

  lemma {:induction false} WithBlocksNotEmpty(out: seq<Line>, left: seq<seq<Line>>)
    requires out != []
    ensures WithBlocks(out, left) != []
    decreases |left|
  {
    if left != [] { WithBlocksNotEmpty(WithBlock(out, left[0]), left[1..]); }
  }

  lemma {:induction false} FilledCount(d: Doc, bodies: seq<seq<Line>>)
    ensures |Bodies(Filled(d, bodies))| == |Bodies(d)|
  {
    match d
    case Done =>
    case Text(_, rest) => FilledCount(rest, bodies);
    case Block(_, _, _, rest) => if bodies != [] { FilledCount(rest, bodies[1..]); }
  }

  /**
    * Settling: after a download re-inserts this device's blocks, the next upload projection is the
    * remote text again exactly when that text is well formed with empty pairs, one per block at least.
    */
  lemma SettlesExactlyWhen(k: Pattern, remote: string, text: string, local: Doc)
    requires Sane(k) && Valid(k, local) && Render(local) == SplitLines(text)
    ensures StripsTo(k, ReinsertedText(k, remote, BlocksAt(local, 0)), remote) <==>
              Settleable(k, remote, |Bodies(local)|)
  {
    SplitHasLines(local, text);
    if Settleable(k, remote, |Bodies(local)|) {
      var d :| Valid(k, d) && Render(d) == SplitLines(remote) && EmptyPairs(d) && |Bodies(d)| >= |Bodies(local)|;
      SettlesIfSettleable(k, remote, d, local);
    }
    if StripsTo(k, ReinsertedText(k, remote, BlocksAt(local, 0)), remote) {
      SettleableIfSettles(k, remote, local);
    }
  }
}
