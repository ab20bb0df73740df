/** Putting local blocks back into a projection, well formed or damaged, and what that guarantees. */
module MarkerReinsert {
  import opened Prelude
  import opened MarkerText
  import opened MarkerDocs
  import opened Markers

  /** The lines a block's content stands for; one blank line and no line at all look the same. */
  function Inner(content: string): seq<Line> {
    if content == [] then [] else SplitLines(content)
  }

  function Inners(blocks: seq<LocalBlock>): seq<seq<Line>> {
    seq(|blocks|, i requires 0 <= i < |blocks| => Inner(blocks[i].content))
  }

  // ----- The result, piece by piece -----

  /** A line of the projection, an inserted body, or a marker or blank line the code adds. */
  datatype Piece = Kept(line: Line) | Added(body: seq<Line>) | Glue(line: Line)

  function Lines(p: Piece): seq<Line> {
    match p
    case Kept(line) => [line]
    case Added(body) => body
    case Glue(line) => [line]
  }

  function Flatten(ps: seq<Piece>): seq<Line> {
    if ps == [] then [] else Lines(ps[0]) + Flatten(ps[1..])
  }

  function KeptLines(ps: seq<Piece>): seq<Line> {
    if ps == [] then [] else (if ps[0].Kept? then [ps[0].line] else []) + KeptLines(ps[1..])
  }

  function AddedBodies(ps: seq<Piece>): seq<seq<Line>> {
    if ps == [] then [] else (if ps[0].Added? then [ps[0].body] else []) + AddedBodies(ps[1..])
  }

  lemma {:induction false} FlattenConcat(a: seq<Piece>, b: seq<Piece>)
    ensures Flatten(a + b) == Flatten(a) + Flatten(b)
  {
    if a == [] {
      assert a + b == b;
    } else {
      assert (a + b)[1..] == a[1..] + b && (a + b)[0] == a[0];
      FlattenConcat(a[1..], b);
    }
  }

  lemma {:induction false} KeptConcat(a: seq<Piece>, b: seq<Piece>)
    ensures KeptLines(a + b) == KeptLines(a) + KeptLines(b)
  {
    if a == [] {
      assert a + b == b;
    } else {
      assert (a + b)[1..] == a[1..] + b && (a + b)[0] == a[0];
      KeptConcat(a[1..], b);
    }
  }

  lemma {:induction false} AddedConcat(a: seq<Piece>, b: seq<Piece>)
    ensures AddedBodies(a + b) == AddedBodies(a) + AddedBodies(b)
  {
    if a == [] {
      assert a + b == b;
    } else {
      assert (a + b)[1..] == a[1..] + b && (a + b)[0] == a[0];
      AddedConcat(a[1..], b);
    }
  }

  /**
    * Bodies go in front of the close line of their pair, in order; an open line nothing follows
    * gets its body and a close line. The second component is the bodies no pair was left for.
    */
  function Insert(k: Pattern, lines: seq<Line>, open: bool, bodies: seq<seq<Line>>): (seq<Piece>, seq<seq<Line>>) {
    if lines == [] then ([], bodies)
    else
      var line, rest := lines[0], lines[1..];
      if bodies != [] && k(line) == Close && open then
        var (ps, left) := Insert(k, rest, false, bodies[1..]);
        ([Added(bodies[0])] + ([Kept(line)] + ps), left)
      else if bodies != [] && k(line) == Open && AllPlain(k, rest) then
        var (ps, left) := Insert(k, rest, false, bodies[1..]);
        ([Kept(line)] + ([Added(bodies[0])] + ([Glue(CLOSE_MARKER)] + ps)), left)
      else
        var (ps, left) := Insert(k, rest, k(line) == Open || (open && k(line) == Plain), bodies);
        ([Kept(line)] + ps, left)
  }

  function Last(lines: seq<Line>): Line
    requires lines != []
  {
    lines[|lines| - 1]
  }

  /** Appends one leftover block, set off by a blank line unless one is there already. */
  function WithBlock(out: seq<Line>, body: seq<Line>): seq<Line> {
    out + (if out != [] && Last(out) != BLANK then [BLANK] else []) + ([OPEN_MARKER] + body + [CLOSE_MARKER])
  }

  function WithBlocks(out: seq<Line>, left: seq<seq<Line>>): seq<Line>
    decreases |left|
  {
    if left == [] then out else WithBlocks(WithBlock(out, left[0]), left[1..])
  }

  /** Leftover blocks go to the end, in front of a trailing newline. */
  function Appended(out: seq<Line>, left: seq<seq<Line>>): seq<Line> {
    if left == [] then out
    else if out != [] && Last(out) == BLANK then WithBlocks(out[..|out| - 1], left) + [BLANK]
    else WithBlocks(out, left)
  }

  function Reinserted(k: Pattern, lines: seq<Line>, bodies: seq<seq<Line>>): seq<Line> {
    var (ps, left) := Insert(k, lines, false, bodies);
    Appended(Flatten(ps), left)
  }

  // ----- The code -----

  datatype Anchor = Anchor(open: int, close: int)

  /** The pairs that end at or after line `i`; an open line left hanging has no close. */
  function AnchorsFrom(k: Pattern, lines: seq<Line>, i: nat, open: int): seq<Anchor>
    requires i <= |lines|
    decreases |lines| - i
  {
    if i == |lines| then if open == -1 then [] else [Anchor(open, -1)]
    else if k(lines[i]) == Open then AnchorsFrom(k, lines, i + 1, i)
    else if k(lines[i]) == Close && open != -1 then [Anchor(open, i)] + AnchorsFrom(k, lines, i + 1, -1)
    else AnchorsFrom(k, lines, i + 1, open)
  }

  method FindAnchors(k: Pattern, lines: seq<Line>) returns (anchors: seq<Anchor>)
    ensures anchors == AnchorsFrom(k, lines, 0, -1)
  {
    anchors := [];
    var open := -1;
    for i := 0 to |lines|
      invariant anchors + AnchorsFrom(k, lines, i, open) == AnchorsFrom(k, lines, 0, -1)
    {
      if k(lines[i]) == Open {
        open := i;
      } else if k(lines[i]) == Close && open != -1 {
        anchors := anchors + [Anchor(open, i)];
        open := -1;
      }
    }
    if open != -1 { anchors := anchors + [Anchor(open, -1)]; }
  }

  /** The next anchor ends at line `i` or later, and hangs at `open` only over plain lines. */
  lemma {:induction false} FirstAnchor(k: Pattern, lines: seq<Line>, i: nat, open: int)
    requires i <= |lines| && -1 <= open < i
    ensures var a := AnchorsFrom(k, lines, i, open);
            && (a != [] ==> (a[0].close == -1 || a[0].close >= i) && (a[0].open == open || a[0].open >= i))
            && (a != [] && open != -1 && a[0] == Anchor(open, -1) ==> AllPlain(k, lines[i..]))
            && (AllPlain(k, lines[i..]) ==> a == if open == -1 then [] else [Anchor(open, -1)])
            && (a != [] ==> a[0].open >= 0)
    decreases |lines| - i
  {
    if i < |lines| {
      assert lines[i..][0] == lines[i] && lines[i..][1..] == lines[i + 1..];
      assert lines[i..] == [lines[i]] + lines[i + 1..];
      FirstAnchor(k, lines, i + 1, if k(lines[i]) == Open then i else if k(lines[i]) == Close then -1 else open);
    }
  }

  /** How the output loop's two tests read the next anchor, and what is left after line `i`. */
  lemma AnchorDecides(k: Pattern, lines: seq<Line>, i: nat, open: int) returns (next: int)
    requires i < |lines| && -1 <= open < i
    ensures -1 <= next <= i
    ensures var a, rest := AnchorsFrom(k, lines, i, open), AnchorsFrom(k, lines, i + 1, next);
            var hangs := k(lines[i]) == Open && AllPlain(k, lines[i + 1..]);
            var ends := k(lines[i]) == Close && open != -1;
            && (a != [] && a[0].close == -1 && i == a[0].open <==> hangs)
            && (a != [] && a[0].close == i <==> ends)
            && rest == (if hangs || ends then a[1..] else a)
            && (next != -1 <==> !hangs && !ends && (k(lines[i]) == Open || (open != -1 && k(lines[i]) == Plain)))
  {
    var after := if k(lines[i]) == Open then i else if k(lines[i]) == Close then -1 else open;
    FirstAnchor(k, lines, i, open);
    FirstAnchor(k, lines, i + 1, after);
    FirstAnchor(k, lines, i + 1, -1);
    next := if k(lines[i]) == Open && AllPlain(k, lines[i + 1..]) then -1 else after;
  }

  lemma PieceCons(p: Piece, ps: seq<Piece>)
    ensures Flatten([p] + ps) == Lines(p) + Flatten(ps)
    ensures KeptLines([p] + ps) == (if p.Kept? then [p.line] else []) + KeptLines(ps)
    ensures AddedBodies([p] + ps) == (if p.Added? then [p.body] else []) + AddedBodies(ps)
  {
    assert ([p] + ps)[1..] == ps;
  }

  /** One line of the output loop, as a step of `Insert`: what it writes and how many bodies it uses. */
  lemma InsertStep(k: Pattern, lines: seq<Line>, i: nat, open: bool, bodies: seq<seq<Line>>, next: bool)
    requires i < |lines|
    requires bodies != [] ==>
               (next <==> !(k(lines[i]) == Open && AllPlain(k, lines[i + 1..])) && !(k(lines[i]) == Close && open) &&
                          (k(lines[i]) == Open || (open && k(lines[i]) == Plain)))
    ensures var line := lines[i];
            var now := Insert(k, lines[i..], open, bodies);
            var hangs, ends := k(line) == Open && AllPlain(k, lines[i + 1..]), k(line) == Close && open;
            bodies != [] ==>
              var then' := Insert(k, lines[i + 1..], next, if hangs || ends then bodies[1..] else bodies);
              && now.1 == then'.1
              && Flatten(now.0) ==
                 (if ends then bodies[0] + [line] else if hangs then [line] + bodies[0] + [CLOSE_MARKER] else [line]) +
                 Flatten(then'.0)
  {
    var line, rest := lines[i], lines[i + 1..];
    assert lines[i..][0] == line && lines[i..][1..] == rest;
    if bodies != [] {
      if k(line) == Close && open {
        var ps := Insert(k, rest, false, bodies[1..]).0;
        PieceCons(Kept(line), ps);
        PieceCons(Added(bodies[0]), [Kept(line)] + ps);
      } else if k(line) == Open && AllPlain(k, rest) {
        var ps := Insert(k, rest, false, bodies[1..]).0;
        PieceCons(Glue(CLOSE_MARKER), ps);
        PieceCons(Added(bodies[0]), [Glue(CLOSE_MARKER)] + ps);
        PieceCons(Kept(line), [Added(bodies[0])] + ([Glue(CLOSE_MARKER)] + ps));
      } else {
        PieceCons(Kept(line), Insert(k, rest, next, bodies).0);
      }
    }
  }

  /** With no body left to place, the projection is copied as it is. */
  lemma {:induction false} InsertNothing(k: Pattern, lines: seq<Line>, open: bool)
    ensures Flatten(Insert(k, lines, open, []).0) == lines && Insert(k, lines, open, []).1 == []
  {
    if lines != [] {
      var open' := k(lines[0]) == Open || (open && k(lines[0]) == Plain);
      InsertNothing(k, lines[1..], open');
      PieceCons(Kept(lines[0]), Insert(k, lines[1..], open', []).0);
    }
  }

  /** The output still to come at line `i`, and the bodies that will be left over. */
  function ToCome(k: Pattern, lines: seq<Line>, i: nat, open: int, bodies: seq<seq<Line>>, used: nat)
    : (seq<Line>, seq<seq<Line>>)
    requires i <= |lines| && used <= |bodies|
  {
    var r := Insert(k, lines[i..], open != -1, bodies[used..]);
    (Flatten(r.0), r.1)
  }

  predicate HangsAt(anchors: seq<Anchor>, used: nat, i: nat) {
    used < |anchors| && anchors[used].close == -1 && i == anchors[used].open
  }

  predicate EndsAt(anchors: seq<Anchor>, used: nat, i: nat) {
    used < |anchors| && anchors[used].close == i
  }

  lemma CopyStep(k: Pattern, lines: seq<Line>, i: nat, open: int, anchors: seq<Anchor>,
                 bodies: seq<seq<Line>>, used: nat)
    returns (next: int)
    requires i < |lines| && -1 <= open < i && used < |bodies|
    requires used <= |anchors| && anchors[used..] == AnchorsFrom(k, lines, i, open)
    ensures -1 <= next <= i
    ensures var hangs, ends := HangsAt(anchors, used, i), EndsAt(anchors, used, i);
            var used' := if hangs || ends then used + 1 else used;
            var now, later := ToCome(k, lines, i, open, bodies, used), ToCome(k, lines, i + 1, next, bodies, used');
            && used' <= |anchors| && anchors[used'..] == AnchorsFrom(k, lines, i + 1, next)
            && now.1 == later.1
            && now.0 == (if ends then bodies[used] + [lines[i]]
                         else if hangs then [lines[i]] + bodies[used] + [CLOSE_MARKER]
                         else [lines[i]]) + later.0
  {
    next := AnchorDecides(k, lines, i, open);
    assert bodies[used..][0] == bodies[used] && bodies[used..][1..] == bodies[used + 1..];
    if used < |anchors| {
      assert anchors[used..][0] == anchors[used] && anchors[used..][1..] == anchors[used + 1..];
    }
    InsertStep(k, lines, i, open != -1, bodies[used..], next != -1);
  }

  lemma CopyPlainly(k: Pattern, lines: seq<Line>, i: nat, open: int, bodies: seq<seq<Line>>)
    requires i < |lines|
    ensures ToCome(k, lines, i, open, bodies, |bodies|).0 ==
            [lines[i]] + ToCome(k, lines, i + 1, open, bodies, |bodies|).0
    ensures ToCome(k, lines, i, open, bodies, |bodies|).1 == ToCome(k, lines, i + 1, open, bodies, |bodies|).1
  {
    InsertNothing(k, lines[i..], open != -1);
    InsertNothing(k, lines[i + 1..], open != -1);
    assert lines[i..] == [lines[i]] + lines[i + 1..];
  }

  /** One turn of the output loop while there are bodies to place. */
  method CopyLine(k: Pattern, lines: seq<Line>, i: nat, ghost open: int, anchors: seq<Anchor>,
                  bodies: seq<seq<Line>>, used: nat)
    returns (written: seq<Line>, used': nat, ghost next: int)
    requires i < |lines| && -1 <= open < i && used < |bodies|
    requires used <= |anchors| && anchors[used..] == AnchorsFrom(k, lines, i, open)
    ensures -1 <= next <= i && used' <= |bodies|
    ensures used' <= |anchors| && anchors[used'..] == AnchorsFrom(k, lines, i + 1, next)
    ensures ToCome(k, lines, i, open, bodies, used).0 == written + ToCome(k, lines, i + 1, next, bodies, used').0
    ensures ToCome(k, lines, i, open, bodies, used).1 == ToCome(k, lines, i + 1, next, bodies, used').1
  {
    next := CopyStep(k, lines, i, open, anchors, bodies, used);
    if used < |anchors| && anchors[used].close == -1 && i == anchors[used].open {
      return [lines[i]] + bodies[used] + [CLOSE_MARKER], used + 1, next;
    }
    if used < |anchors| && anchors[used].close == i {
      return bodies[used] + [lines[i]], used + 1, next;
    }
    return [lines[i]], used, next;
  }

  /** The output loop: copies the projection and inserts bodies at their anchors. */
  method CopyWithBodies(k: Pattern, lines: seq<Line>, anchors: seq<Anchor>, bodies: seq<seq<Line>>)
    returns (output: seq<Line>, used: nat)
    requires anchors == AnchorsFrom(k, lines, 0, -1)
    ensures var r := Insert(k, lines, false, bodies);
            output == Flatten(r.0) && used <= |bodies| && bodies[used..] == r.1
  {
    output, used := [], 0;
    ghost var open := -1;
    assert lines[0..] == lines && bodies[0..] == bodies;
    for i := 0 to |lines|
      invariant CopiedTo(k, lines, i, open, anchors, bodies, used, output)
    {
      if used == |bodies| {
        CopyPlainly(k, lines, i, open, bodies);
        output := output + [lines[i]];
      } else {
        var written;
        written, used, open := CopyLine(k, lines, i, open, anchors, bodies, used);
        output := output + written;
      }
    }
  }

  ghost predicate CopiedTo(k: Pattern, lines: seq<Line>, i: nat, open: int, anchors: seq<Anchor>,
                           bodies: seq<seq<Line>>, used: nat, output: seq<Line>) {
    && i <= |lines| && used <= |bodies| && -1 <= open < i
    && (used < |bodies| ==> used <= |anchors| && anchors[used..] == AnchorsFrom(k, lines, i, open))
    && var r, whole := ToCome(k, lines, i, open, bodies, used), ToCome(k, lines, 0, -1, bodies, 0);
       output + r.0 == whole.0 && r.1 == whole.1
  }

  /** The leftover loop. */
  method AppendLeftovers(out: seq<Line>, left: seq<seq<Line>>) returns (output: seq<Line>)
    ensures output == Appended(out, left)
  {
    output := out;
    if left == [] { return; }
    var trailing := output != [] && output[|output| - 1] == BLANK;
    if trailing { output := output[..|output| - 1]; }
    ghost var core := output;
    assert left[0..] == left;
    for i := 0 to |left|
      invariant WithBlocks(output, left[i..]) == WithBlocks(core, left)
    {
      assert left[i..][0] == left[i] && left[i..][1..] == left[i + 1..];
      ghost var before := output;
      if output != [] && output[|output| - 1] != BLANK { output := output + [BLANK]; }
      output := output + [OPEN_MARKER];
      output := output + left[i];
      output := output + [CLOSE_MARKER];
      assert output == WithBlock(before, left[i]);
    }
    if trailing { output := output + [BLANK]; }
  }

  function ReinsertedText(k: Pattern, projection: string, blocks: seq<LocalBlock>): string {
    if blocks == [] then projection else Join(Reinserted(k, SplitLines(projection), Inners(blocks)))
  }

  method ReinsertLocalBlocks(k: Pattern, projection: string, blocks: seq<LocalBlock>) returns (text: string)
    ensures text == ReinsertedText(k, projection, blocks)
  {
    if blocks == [] { return projection; }
    var lines := SplitLines(projection);
    var anchors := FindAnchors(k, lines);
    var bodies := Inners(blocks);
    var output, used := CopyWithBodies(k, lines, anchors, bodies);
    output := AppendLeftovers(output, bodies[used..]);
    text := Join(output);
  }
}
