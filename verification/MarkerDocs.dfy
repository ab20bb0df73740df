/** The grammar of a well-formed marked file, and what it means to empty or fill its blocks. */
module MarkerDocs {
  import opened MarkerText

  /** Plain lines and marker blocks in any order; a block holds plain lines between its two markers. */
  datatype Doc =
    | Done
    | Text(line: Line, rest: Doc)
    | Block(open: Line, body: seq<Line>, close: Line, rest: Doc)

  predicate AllPlain(k: Pattern, lines: seq<Line>) {
    forall i :: 0 <= i < |lines| ==> k(lines[i]) == Plain
  }

  predicate Valid(k: Pattern, d: Doc) {
    match d
    case Done => true
    case Text(line, rest) => k(line) == Plain && Valid(k, rest)
    case Block(open, body, close, rest) =>
      k(open) == Open && AllPlain(k, body) && k(close) == Close && Valid(k, rest)
  }

  function Render(d: Doc): seq<Line> {
    match d
    case Done => []
    case Text(line, rest) => [line] + Render(rest)
    case Block(open, body, close, rest) => [open] + (body + ([close] + Render(rest)))
  }

  function Bodies(d: Doc): seq<seq<Line>> {
    match d
    case Done => []
    case Text(_, rest) => Bodies(rest)
    case Block(_, body, _, rest) => [body] + Bodies(rest)
  }

  /** The document without its bodies: what an upload shows of it. */
  function Emptied(d: Doc): Doc {
    match d
    case Done => d
    case Text(line, rest) => Text(line, Emptied(rest))
    case Block(open, _, close, rest) => Block(open, [], close, Emptied(rest))
  }

  predicate EmptyPairs(d: Doc) {
    forall i :: 0 <= i < |Bodies(d)| ==> Bodies(d)[i] == []
  }

  /** The document with lines added at the end of its first bodies. */
  function Filled(d: Doc, added: seq<seq<Line>>): Doc {
    match d
    case Done => d
    case Text(line, rest) => Text(line, Filled(rest, added))
    case Block(open, body, close, rest) =>
      if added == [] then d else Block(open, body + added[0], close, Filled(rest, added[1..]))
  }

  // ----- Which line sequences are documents -----

  /** Marker lines alternate: an open line only outside a block, a close line only inside. */
  predicate Balanced(k: Pattern, lines: seq<Line>, inside: bool) {
    if lines == [] then !inside
    else
      match k(lines[0])
      case Open => !inside && Balanced(k, lines[1..], true)
      case Close => inside && Balanced(k, lines[1..], false)
      case Plain => Balanced(k, lines[1..], inside)
  }

  lemma BalancedCons(k: Pattern, line: Line, rest: seq<Line>, inside: bool)
    ensures Balanced(k, [line] + rest, inside) ==
            match k(line)
            case Open => !inside && Balanced(k, rest, true)
            case Close => inside && Balanced(k, rest, false)
            case Plain => Balanced(k, rest, inside)
  {
    assert ([line] + rest)[1..] == rest;
  }

  lemma BalancedAt(k: Pattern, lines: seq<Line>, i: nat, inside: bool)
    requires i < |lines|
    ensures Balanced(k, lines[i..], inside) ==
            match k(lines[i])
            case Open => !inside && Balanced(k, lines[i + 1..], true)
            case Close => inside && Balanced(k, lines[i + 1..], false)
            case Plain => Balanced(k, lines[i + 1..], inside)
  {
    assert lines[i..][0] == lines[i] && lines[i..][1..] == lines[i + 1..];
  }

  lemma {:induction false} BalancedBody(k: Pattern, body: seq<Line>, rest: seq<Line>)
    requires AllPlain(k, body)
    ensures Balanced(k, body + rest, true) == Balanced(k, rest, true)
  {
    if body == [] {
      assert body + rest == rest;
    } else {
      BalancedCons(k, body[0], body[1..] + rest, true);
      assert body + rest == [body[0]] + (body[1..] + rest);
      BalancedBody(k, body[1..], rest);
    }
  }

  lemma {:induction false} RenderIsBalanced(k: Pattern, d: Doc)
    requires Valid(k, d)
    ensures Balanced(k, Render(d), false)
  {
    match d
    case Done =>
    case Text(line, rest) =>
      RenderIsBalanced(k, rest);
      BalancedCons(k, line, Render(rest), false);
    case Block(open, body, close, rest) =>
      RenderIsBalanced(k, rest);
      BalancedCons(k, close, Render(rest), true);
      BalancedBody(k, body, [close] + Render(rest));
      BalancedCons(k, open, body + ([close] + Render(rest)), false);
  }

  /** Splits the lines after an open marker at the close marker that balance promises. */
  lemma {:induction false} BodyEnds(k: Pattern, lines: seq<Line>) returns (n: nat)
    requires Balanced(k, lines, true)
    ensures n < |lines| && AllPlain(k, lines[..n]) && k(lines[n]) == Close && Balanced(k, lines[n + 1..], false)
  {
    if k(lines[0]) == Close {
      n := 0;
    } else {
      var m := BodyEnds(k, lines[1..]);
      n := m + 1;
      assert lines[..n] == [lines[0]] + lines[1..][..m];
      assert lines[n + 1..] == lines[1..][m + 1..];
    }
  }

  lemma SplitAt(lines: seq<Line>, n: nat)
    requires n < |lines|
    ensures lines == lines[..n] + ([lines[n]] + lines[n + 1..])
  {
  }

  /** A line sequence is the rendering of a document exactly when its markers alternate. */
  lemma {:induction false} BalancedIsRendered(k: Pattern, lines: seq<Line>) returns (d: Doc)
    requires Balanced(k, lines, false)
    ensures Valid(k, d) && Render(d) == lines
  {
    if lines == [] { return Done; }
    if k(lines[0]) == Plain {
      var rest := BalancedIsRendered(k, lines[1..]);
      return Text(lines[0], rest);
    }
    var inner := lines[1..];
    var n := BodyEnds(k, inner);
    SplitAt(inner, n);
    var rest := BalancedIsRendered(k, inner[n + 1..]);
    d := Block(lines[0], inner[..n], inner[n], rest);
  }

  /** How many plain lines come first. */
  function PlainRun(k: Pattern, lines: seq<Line>): nat {
    if lines == [] || k(lines[0]) != Plain then 0 else 1 + PlainRun(k, lines[1..])
  }

  lemma {:induction false} RunOf(k: Pattern, plain: seq<Line>, marker: Line, rest: seq<Line>)
    requires AllPlain(k, plain) && k(marker) != Plain
    ensures PlainRun(k, plain + ([marker] + rest)) == |plain|
  {
    if plain == [] {
      assert plain + ([marker] + rest) == [marker] + rest;
    } else {
      assert (plain + ([marker] + rest))[1..] == plain[1..] + ([marker] + rest);
      RunOf(k, plain[1..], marker, rest);
    }
  }

  lemma SameBody(k: Pattern, a: seq<Line>, x: Line, s: seq<Line>, b: seq<Line>, y: Line, t: seq<Line>)
    requires AllPlain(k, a) && AllPlain(k, b) && k(x) != Plain && k(y) != Plain
    requires a + ([x] + s) == b + ([y] + t)
    ensures a == b && x == y && s == t
  {
    var l := a + ([x] + s);
    RunOf(k, a, x, s);
    RunOf(k, b, y, t);
    assert l[|a|] == x && l[|b|] == y;
    assert l[..|a|] == a && l[..|a|] == b;
    assert l[|a| + 1..] == s && l[|a| + 1..] == t;
  }

  lemma ConsInjective(x: Line, s: seq<Line>, y: Line, t: seq<Line>)
    requires [x] + s == [y] + t
    ensures x == y && s == t
  {
    assert ([x] + s)[0] == x && ([y] + t)[0] == y;
    assert ([x] + s)[1..] == s && ([y] + t)[1..] == t;
  }

  /** The reading is unique: equal renderings come from equal documents. */
  lemma {:induction false} RenderInjective(k: Pattern, d: Doc, e: Doc)
    requires Valid(k, d) && Valid(k, e) && Render(d) == Render(e)
    ensures d == e
  {
    match (d, e)
    case (Text(x, s), Text(y, t)) =>
      ConsInjective(x, Render(s), y, Render(t));
      RenderInjective(k, s, t);
    case (Block(x, b, y, s), Block(x', b', y', t)) =>
      ConsInjective(x, b + ([y] + Render(s)), x', b' + ([y'] + Render(t)));
      SameBody(k, b, y, Render(s), b', y', Render(t));
      RenderInjective(k, s, t);
    case (_, _) =>
      FirstLine(d);
      FirstLine(e);
  }

  lemma FirstLine(d: Doc)
    ensures d.Done? <==> Render(d) == []
    ensures d.Text? ==> Render(d)[0] == d.line
    ensures d.Block? ==> Render(d)[0] == d.open
  {
  }

  // ----- Emptying and filling -----

  lemma {:induction false} EmptiedFacts(k: Pattern, d: Doc)
    requires Valid(k, d)
    ensures Valid(k, Emptied(d)) && EmptyPairs(Emptied(d)) && |Bodies(Emptied(d))| == |Bodies(d)|
    ensures Emptied(d) == d <==> EmptyPairs(d)
  {
    match d
    case Done =>
    case Text(_, rest) => EmptiedFacts(k, rest);
    case Block(_, body, _, rest) =>
      EmptiedFacts(k, rest);
      assert Bodies(d)[0] == body && Bodies(d)[1..] == Bodies(rest);
      assert forall i :: 0 <= i < |Bodies(rest)| ==> Bodies(d)[i + 1] == Bodies(rest)[i];
  }

  /** Putting bodies into the emptied document gives the document exactly when they are its own. */
  lemma {:induction false} FillEmptied(d: Doc, bodies: seq<seq<Line>>)
    requires |bodies| == |Bodies(d)|
    ensures Filled(Emptied(d), bodies) == d <==> bodies == Bodies(d)
  {
    match d
    case Done =>
    case Text(_, rest) => FillEmptied(rest, bodies);
    case Block(open, body, close, rest) =>
      FillEmptied(rest, bodies[1..]);
      assert [] + bodies[0] == bodies[0];
      assert bodies == [bodies[0]] + bodies[1..];
      assert Bodies(d)[1..] == Bodies(rest) && Bodies(d)[0] == body;
  }

  lemma {:induction false} FilledFacts(k: Pattern, d: Doc, added: seq<seq<Line>>)
    requires Valid(k, d) && forall i :: 0 <= i < |added| ==> AllPlain(k, added[i])
    ensures Valid(k, Filled(d, added)) && Emptied(Filled(d, added)) == Emptied(d)
  {
    match d
    case Done =>
    case Text(_, rest) => FilledFacts(k, rest, added);
    case Block(_, _, _, rest) =>
      if added != [] { FilledFacts(k, rest, added[1..]); }
  }

  function CountOpens(k: Pattern, lines: seq<Line>): nat {
    if lines == [] then 0 else (if k(lines[0]) == Open then 1 else 0) + CountOpens(k, lines[1..])
  }

  lemma {:induction false} CountConcat(k: Pattern, a: seq<Line>, b: seq<Line>)
    ensures CountOpens(k, a + b) == CountOpens(k, a) + CountOpens(k, b)
  {
    if a == [] {
      assert a + b == b;
    } else {
      assert (a + b)[1..] == a[1..] + b;
      CountConcat(k, a[1..], b);
    }
  }

  lemma {:induction false} CountPlain(k: Pattern, lines: seq<Line>)
    requires AllPlain(k, lines)
    ensures CountOpens(k, lines) == 0
  {
    if lines != [] { CountPlain(k, lines[1..]); }
  }

  lemma {:induction false} CountRender(k: Pattern, d: Doc)
    requires Valid(k, d)
    ensures CountOpens(k, Render(d)) == |Bodies(d)|
  {
    match d
    case Done =>
    case Text(line, rest) =>
      CountRender(k, rest);
      CountConcat(k, [line], Render(rest));
    case Block(open, body, close, rest) =>
      CountRender(k, rest);
      CountPlain(k, body);
      CountConcat(k, [close], Render(rest));
      CountConcat(k, body, [close] + Render(rest));
      CountConcat(k, [open], body + ([close] + Render(rest)));
  }
}
