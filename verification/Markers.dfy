/** Local marker blocks: parsing them out of a file, stripping them for upload, putting them back. */
module Markers {
  import opened Prelude
  import opened MarkerText
  import opened MarkerDocs

  datatype LocalBlock = LocalBlock(startLine: nat, endLine: nat, content: string)

  datatype ErrorCode = Unclosed | Nested | OrphanClose

  datatype MarkerError = MarkerError(code: ErrorCode, line: nat)

  // ----- Parsing -----

  /** The blocks that close from line `i` on, with the block opened at `open` still running. */
  function BlocksFrom(k: Pattern, lines: seq<Line>, i: nat, open: int): seq<LocalBlock>
    requires i <= |lines| && -1 <= open < i
    decreases |lines| - i
  {
    if i == |lines| then []
    else
      match k(lines[i])
      case Open => BlocksFrom(k, lines, i + 1, i)
      case Close =>
        if open == -1 then BlocksFrom(k, lines, i + 1, open)
        else [LocalBlock(open + 1, i + 1, Join(lines[open + 1..i]))] + BlocksFrom(k, lines, i + 1, -1)
      case Plain => BlocksFrom(k, lines, i + 1, open)
  }

  /** The index of the last marker among the first `n` lines, or -1. */
  function LastMarker(k: Pattern, lines: seq<Line>, n: nat): int
    requires n <= |lines|
  {
    if n == 0 then -1 else if k(lines[n - 1]) != Plain then n - 1 else LastMarker(k, lines, n - 1)
  }

  /** The last marker among the first `n` lines is of kind `kind`. */
  predicate EndsWith(k: Pattern, lines: seq<Line>, n: nat, kind: Kind)
    requires n <= |lines|
  {
    0 <= LastMarker(k, lines, n) < |lines| && k(lines[LastMarker(k, lines, n)]) == kind
  }

  /**
    * Parses exactly the balanced texts. A refusal names the first line at which the markers stop
    * alternating: an open line after an open line, a close line with none open, or the last open line.
    */
  method ParseLocalBlocks(k: Pattern, text: string) returns (r: Result<seq<LocalBlock>, MarkerError>)
    ensures r.Ok? <==> Balanced(k, SplitLines(text), false)
    ensures r.Ok? ==> r.value == BlocksFrom(k, SplitLines(text), 0, -1)
    ensures r.Err? ==> 1 <= r.error.line <= |SplitLines(text)|
    ensures r.Err? ==>
              var lines, n := SplitLines(text), r.error.line;
              match r.error.code
              case Nested => k(lines[n - 1]) == Open && EndsWith(k, lines, n - 1, Open)
              case OrphanClose => k(lines[n - 1]) == Close && !EndsWith(k, lines, n - 1, Open)
              case Unclosed => k(lines[n - 1]) == Open && LastMarker(k, lines, |lines|) == n - 1
  {
    var lines := SplitLines(text);
    var blocks: seq<LocalBlock>, open := [], -1;
    assert lines[0..] == lines;
    for i := 0 to |lines|
      invariant ParsedTo(k, lines, i, open, blocks)
    {
      ParseStep(k, lines, i, open, blocks);
      match k(lines[i]) {
        case Open =>
          if open != -1 { return Err(MarkerError(Nested, i + 1)); }
          open := i;
        case Close =>
          if open == -1 { return Err(MarkerError(OrphanClose, i + 1)); }
          blocks := blocks + [LocalBlock(open + 1, i + 1, Join(lines[open + 1..i]))];
          open := -1;
        case Plain =>
      }
    }
    if open != -1 { return Err(MarkerError(Unclosed, open + 1)); }
    r := Ok(blocks);
  }

  /** The parser's loop: what is left decides the outcome, and an open block is the last marker seen. */
  ghost predicate ParsedTo(k: Pattern, lines: seq<Line>, i: nat, open: int, blocks: seq<LocalBlock>) {
    && i <= |lines| && -1 <= open < i
    && (if open == -1 then !EndsWith(k, lines, i, Open) else LastMarker(k, lines, i) == open && k(lines[open]) == Open)
    && Balanced(k, lines, false) == Balanced(k, lines[i..], open != -1)
    && blocks + BlocksFrom(k, lines, i, open) == BlocksFrom(k, lines, 0, -1)
  }

  lemma ParseStep(k: Pattern, lines: seq<Line>, i: nat, open: int, blocks: seq<LocalBlock>)
    requires i < |lines| && ParsedTo(k, lines, i, open, blocks)
    ensures match k(lines[i])
            case Open => if open == -1 then ParsedTo(k, lines, i + 1, i, blocks) else !Balanced(k, lines, false)
            case Close =>
              if open == -1 then !Balanced(k, lines, false)
              else ParsedTo(k, lines, i + 1, -1, blocks + [LocalBlock(open + 1, i + 1, Join(lines[open + 1..i]))])
            case Plain => ParsedTo(k, lines, i + 1, open, blocks)
  {
    BalancedAt(k, lines, i, open != -1);
  }

  /** The blocks of a document whose first line has index `i`. */
  function BlocksAt(d: Doc, i: nat): seq<LocalBlock> {
    match d
    case Done => []
    case Text(_, rest) => BlocksAt(rest, i + 1)
    case Block(_, body, _, rest) =>
      [LocalBlock(i + 1, i + |body| + 2, Join(body))] + BlocksAt(rest, i + |body| + 2)
  }

  lemma {:induction false} SkipPlain(k: Pattern, lines: seq<Line>, i: nat, j: nat, open: int)
    requires -1 <= open < i <= j <= |lines| && AllPlain(k, lines[i..j])
    ensures BlocksFrom(k, lines, i, open) == BlocksFrom(k, lines, j, open)
    decreases j - i
  {
    if i < j {
      assert lines[i..j][0] == lines[i];
      assert lines[i + 1..j] == lines[i..j][1..];
      SkipPlain(k, lines, i + 1, j, open);
    }
  }

  /** The suffix a document renders splits where its first block does. */
  lemma BlockSuffix(d: Doc, lines: seq<Line>, i: nat)
    requires i <= |lines| && d.Block? && Render(d) == lines[i..]
    ensures var j := i + 1 + |d.body|;
            && j < |lines| && lines[i] == d.open && lines[i + 1..j] == d.body && lines[j] == d.close
            && lines[j + 1..] == Render(d.rest)
  {
    var s, b := lines[i..], |d.body|;
    assert s[0] == d.open && s[1..b + 1] == d.body && s[b + 1] == d.close && s[b + 2..] == Render(d.rest);
    assert s[1..b + 1] == lines[i + 1..i + 1 + b];
  }

  lemma TextSuffix(d: Doc, lines: seq<Line>, i: nat)
    requires i <= |lines| && d.Text? && Render(d) == lines[i..]
    ensures i < |lines| && lines[i] == d.line && lines[i + 1..] == Render(d.rest)
  {
    var s := lines[i..];
    assert s[0] == d.line && s[1..] == Render(d.rest);
  }

  /** What the parser reports are the document's blocks, with their line ranges. */
  lemma {:induction false} ParsedBlocks(k: Pattern, d: Doc, lines: seq<Line>, i: nat)
    requires i <= |lines| && Valid(k, d) && Render(d) == lines[i..]
    ensures BlocksFrom(k, lines, i, -1) == BlocksAt(d, i)
    decreases d
  {
    match d
    case Done =>
    case Text(_, rest) =>
      TextSuffix(d, lines, i);
      ParsedBlocks(k, rest, lines, i + 1);
    case Block(_, body, _, rest) =>
      BlockSuffix(d, lines, i);
      var j := i + 1 + |body|;
      SkipPlain(k, lines, i + 1, j, i);
      ParsedBlocks(k, rest, lines, j + 1);
  }

  // ----- Stripping -----

  predicate Within(b: LocalBlock, n: nat) {
    b.startLine < n < b.endLine
  }

  /** The numbers of the lines strictly between a block's markers. */
  function Between(b: LocalBlock): set<nat> {
    set n: nat | b.startLine < n < b.endLine && Within(b, n)
  }

  function Dropped(blocks: seq<LocalBlock>): set<nat> {
    set b, n | b in blocks && n in Between(b) :: n
  }

  /** The lines from index `i` on whose number is not dropped. */
  function KeptFrom(lines: seq<Line>, i: nat, dropped: set<nat>): seq<Line>
    requires i <= |lines|
    decreases |lines| - i
  {
    if i == |lines| then []
    else (if i + 1 in dropped then [] else [lines[i]]) + KeptFrom(lines, i + 1, dropped)
  }

  /** Line number `n` lies inside a body of the document that starts at index `i`. */
  predicate InBody(d: Doc, i: nat, n: nat) {
    match d
    case Done => false
    case Text(_, rest) => InBody(rest, i + 1, n)
    case Block(_, body, _, rest) => i + 1 < n < i + |body| + 2 || InBody(rest, i + |body| + 2, n)
  }

  lemma DroppedCons(b: LocalBlock, blocks: seq<LocalBlock>)
    ensures Dropped([b] + blocks) == Between(b) + Dropped(blocks)
  {
    assert forall x :: x in [b] + blocks <==> x == b || x in blocks;
  }

  lemma {:induction false} DroppedAreBodies(d: Doc, i: nat, n: nat)
    ensures n in Dropped(BlocksAt(d, i)) <==> InBody(d, i, n)
    ensures InBody(d, i, n) ==> n > i + 1
  {
    match d
    case Done =>
    case Text(_, rest) => DroppedAreBodies(rest, i + 1, n);
    case Block(_, body, _, rest) =>
      DroppedAreBodies(rest, i + |body| + 2, n);
      var first := LocalBlock(i + 1, i + |body| + 2, Join(body));
      DroppedCons(first, BlocksAt(rest, i + |body| + 2));
      assert n in Between(first) <==> Within(first, n);
  }

  lemma {:induction false} KeptSkips(lines: seq<Line>, i: nat, j: nat, dropped: set<nat>)
    requires i <= j <= |lines| && forall n :: i < n <= j ==> n in dropped
    ensures KeptFrom(lines, i, dropped) == KeptFrom(lines, j, dropped)
    decreases j - i
  {
    if i < j { KeptSkips(lines, i + 1, j, dropped); }
  }

  /** Dropping the bodies' line numbers leaves the emptied document. */
  lemma {:induction false} KeptIsEmptied(d: Doc, lines: seq<Line>, i: nat, dropped: set<nat>)
    requires i <= |lines| && Render(d) == lines[i..]
    requires forall n {:trigger InBody(d, i, n)} :: n > i ==> (n in dropped <==> InBody(d, i, n))
    ensures KeptFrom(lines, i, dropped) == Render(Emptied(d))
    decreases d
  {
    match d
    case Done =>
    case Text(_, rest) =>
      TextSuffix(d, lines, i);
      DroppedAreBodies(d, i, i + 1);
      forall n {:trigger InBody(rest, i + 1, n)} | n > i + 1 ensures n in dropped <==> InBody(rest, i + 1, n) {
        assert InBody(d, i, n) == InBody(rest, i + 1, n);
      }
      KeptIsEmptied(rest, lines, i + 1, dropped);
    case Block(_, body, _, rest) =>
      BlockSuffix(d, lines, i);
      var j := i + 1 + |body|;
      DroppedAreBodies(d, i, i + 1);
      DroppedAreBodies(rest, j + 1, j + 1);
      assert !InBody(d, i, i + 1) && !InBody(d, i, j + 1);
      forall n | i + 1 < n <= j ensures n in dropped { assert InBody(d, i, n); }
      KeptSkips(lines, i + 1, j, dropped);
      forall n {:trigger InBody(rest, j + 1, n)} | n > j + 1 ensures n in dropped <==> InBody(rest, j + 1, n) {
        assert InBody(d, i, n) == InBody(rest, j + 1, n);
      }
      KeptIsEmptied(rest, lines, j + 1, dropped);
      assert [] + ([d.close] + Render(Emptied(rest))) == [d.close] + Render(Emptied(rest));
  }

  method CollectDropped(blocks: seq<LocalBlock>) returns (dropped: set<nat>)
    ensures dropped == Dropped(blocks)
  {
    dropped := {};
    for i := 0 to |blocks|
      invariant dropped == Dropped(blocks[..i])
    {
      var b := blocks[i];
      var line := b.startLine + 1;
      while line < b.endLine
        invariant b.startLine < line
        invariant dropped == Dropped(blocks[..i]) + set n | n in Between(b) && n < line
      {
        dropped := dropped + {line};
        line := line + 1;
      }
      assert forall x :: x in blocks[..i + 1] <==> x in blocks[..i] || x == b;
      assert Dropped(blocks[..i + 1]) == Dropped(blocks[..i]) + Between(b);
    }
    assert blocks[..|blocks|] == blocks;
  }

  method FilterLines(lines: seq<Line>, dropped: set<nat>) returns (kept: seq<Line>)
    ensures kept == KeptFrom(lines, 0, dropped)
  {
    kept := [];
    for i := 0 to |lines|
      invariant kept + KeptFrom(lines, i, dropped) == KeptFrom(lines, 0, dropped)
    {
      if i + 1 !in dropped { kept := kept + [lines[i]]; }
    }
  }

  lemma {:induction false} NoBlocksNoBodies(d: Doc, i: nat)
    requires BlocksAt(d, i) == []
    ensures Emptied(d) == d
  {
    if d.Text? { NoBlocksNoBodies(d.rest, i + 1); }
  }

  /** The upload projection: the document with every body emptied; malformed text is refused. */
  method StripLocalBlocks(k: Pattern, text: string) returns (r: Result<string, MarkerError>)
    ensures r.Ok? <==> Balanced(k, SplitLines(text), false)
    ensures forall d :: r.Ok? && Valid(k, d) && Render(d) == SplitLines(text) ==> r.value == Join(Render(Emptied(d)))
  {
    var parsed := ParseLocalBlocks(k, text);
    if parsed.Err? { return Err(parsed.error); }
    var lines := SplitLines(text);
    ghost var doc := BalancedIsRendered(k, lines);
    assert lines[0..] == lines;
    ParsedBlocks(k, doc, lines, 0);
    forall d | Valid(k, d) && Render(d) == lines ensures d == doc { RenderInjective(k, d, doc); }
    if parsed.value == [] {
      NoBlocksNoBodies(doc, 0);
      JoinSplit(text);
      return Ok(text);
    }
    var dropped := CollectDropped(parsed.value);
    var kept := FilterLines(lines, dropped);
    forall n {:trigger InBody(doc, 0, n)} | n > 0 ensures n in dropped <==> InBody(doc, 0, n) {
      DroppedAreBodies(doc, 0, n);
    }
    KeptIsEmptied(doc, lines, 0, dropped);
    r := Ok(Join(kept));
  }
}
