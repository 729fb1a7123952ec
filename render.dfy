/** What colourOutput writes for a classified text: per line, an optional
    right-aligned line-number gutter, then each character preceded by the
    colour change recorded at its column (if any), then a colour reset and a
    newline. The tag-to-colour table is a parameter because the library and
    the standalone program use different ones. */
module Render {
  import opened Wrappers
  import opened Text
  import opened Terminal
  import opened Engine

  /** One arm of the tag switch: the group names it lists and what it does
      (Some colour: color.Set of that colour; None: color.Unset). */
  datatype Case = Case(tags: seq<string>, paint: Option<Colour>)

  /** The switch on a group: the first arm listing it decides; a group no
      arm lists falls to the default arm, which unsets. */
  function Lookup(table: seq<Case>, tag: string): Option<Colour>
  {
    LookupFrom(table, tag, 0)
  }

  /** The switch from arm k on. */
  function LookupFrom(table: seq<Case>, tag: string, k: nat): Option<Colour>
    decreases |table| - k
  {
    if k >= |table| then None
    else if tag in table[k].tags then table[k].paint
    else LookupFrom(table, tag, k + 1)
  }

  /** First match wins: the arm that decides is the first one listing the
      tag, whatever later arms say. */
  lemma LookupFirstMatch(table: seq<Case>, tag: string, i: nat)
    requires i < |table| && tag in table[i].tags
    requires forall j :: 0 <= j < i ==> tag !in table[j].tags
    ensures Lookup(table, tag) == table[i].paint
  {
    LookupFromFirstMatch(table, tag, 0, i);
  }

  lemma {:induction false} LookupFromFirstMatch(table: seq<Case>, tag: string, k: nat, i: nat)
    requires k <= i < |table| && tag in table[i].tags
    requires forall j :: k <= j < i ==> tag !in table[j].tags
    ensures LookupFrom(table, tag, k) == table[i].paint
    decreases i - k
  {
    if k < i {
      LookupFromFirstMatch(table, tag, k + 1, i);
    }
  }

  /** A tag no arm lists unsets the colour. */
  lemma LookupUnlisted(table: seq<Case>, tag: string)
    requires forall j :: 0 <= j < |table| ==> tag !in table[j].tags
    ensures Lookup(table, tag) == None
  {
    LookupFromUnlisted(table, tag, 0);
  }

  lemma {:induction false} LookupFromUnlisted(table: seq<Case>, tag: string, k: nat)
    requires forall j :: k <= j < |table| ==> tag !in table[j].tags
    ensures LookupFrom(table, tag, k) == None
    decreases |table| - k
  {
    if k < |table| {
      LookupFromUnlisted(table, tag, k + 1);
    }
  }

  function PaintToken(p: Option<Colour>): Token
  {
    match p
    case Some(k) => Set(k)
    case None => Unset
  }

  /** matches[i], for a line the engine classified. */
  function MatchAt(matches: seq<LineMatch>, i: nat): LineMatch
  {
    if i < |matches| then matches[i] else map[]
  }

  /** colourOutput reads matches[lineN] only for a line with at least one
      character; that read must be in range. */
  predicate Covered(matches: seq<LineMatch>, lines: seq<string>)
  {
    forall i :: 0 <= i < |lines| && lines[i] != [] ==> i < |matches|
  }

  /** The character `c` at column `col`, preceded by the colour change the
      line's classification records there, if any. */
  function Column(table: seq<Case>, lm: LineMatch, col: nat, c: char): seq<Token>
  {
    (if col in lm then [PaintToken(Lookup(table, lm[col]))] else []) + [Char(c)]
  }

  /** The characters of one line, column by column from 0. */
  function Body(table: seq<Case>, lm: LineMatch, line: string): seq<Token>
    decreases |line|
  {
    if line == [] then []
    else Body(table, lm, line[..|line| - 1]) + Column(table, lm, |line| - 1, line[|line| - 1])
  }

  /** Reference definition of the colour at column k: the one chosen by the
      nearest entry at or before k, or `start` when there is none. */
  function ColourAt(table: seq<Case>, lm: LineMatch, k: nat, start: Option<Colour>): Option<Colour>
  {
    if k in lm then Lookup(table, lm[k])
    else if k == 0 then start
    else ColourAt(table, lm, k - 1, start)
  }

  /** The gutter of line number n in a column w digits wide: padding
      spaces, then in yellow the number and one space, then a reset.
      strings.Repeat panics on a negative count, hence the requires. */
  function Gutter(w: nat, n: nat): seq<Token>
    requires |Digits(n)| <= w
  {
    GutterChars(Spaces(w - |Digits(n)|)) + [Set(Yellow)] + GutterChars(Digits(n) + " ") + [Unset]
  }

  /** Line i (0-based): its gutter when numbering, its characters, then the
      unconditional reset and the newline. */
  function LineOut(table: seq<Case>, numbered: bool, w: nat, lm: LineMatch, i: nat, line: string): seq<Token>
    requires numbered ==> |Digits(i + 1)| <= w
  {
    (if numbered then Gutter(w, i + 1) else []) + Body(table, lm, line) + [Unset, Newline]
  }

  /** The output for the lines so far, w being the gutter width. */
  function RenderLines(table: seq<Case>, numbered: bool, w: nat, matches: seq<LineMatch>, lines: seq<string>): seq<Token>
    requires numbered ==> |Digits(|lines|)| <= w
    decreases |lines|
  {
    if lines == [] then []
    else
      var n := |lines| - 1;
      DigitsMonotone(n, |lines|);
      RenderLines(table, numbered, w, matches, lines[..n]) + LineOut(table, numbered, w, MatchAt(matches, n), n, lines[n])
  }

  /** The gutter width: the digit count of the number of lines, a trailing
      empty line included. */
  function GutterWidth(data: string): nat
  {
    |Digits(|Split(data)|)|
  }

  /** All that colourOutput(matches, data) writes. */
  function ColourOutputSpec(table: seq<Case>, numbered: bool, matches: seq<LineMatch>, data: string): seq<Token>
  {
    RenderLines(table, numbered, GutterWidth(data), matches, Split(data))
  }

  // One more column, one more line: how the loops extend the output.

  lemma BodyStep(table: seq<Case>, lm: LineMatch, line: string, k: nat)
    requires k < |line|
    ensures Body(table, lm, line[..k + 1]) == Body(table, lm, line[..k]) + Column(table, lm, k, line[k])
  {
    assert line[..k + 1][..k] == line[..k];
  }

  lemma RenderLinesStep(table: seq<Case>, numbered: bool, w: nat, matches: seq<LineMatch>, lines: seq<string>, n: nat)
    requires n < |lines| && (numbered ==> |Digits(n + 1)| <= w)
    ensures numbered ==> |Digits(n)| <= w
    ensures RenderLines(table, numbered, w, matches, lines[..n + 1])
      == RenderLines(table, numbered, w, matches, lines[..n]) + LineOut(table, numbered, w, MatchAt(matches, n), n, lines[n])
  {
    DigitsMonotone(n, n + 1);
    assert lines[..n + 1][..n] == lines[..n];
  }

  // Deleting colours and gutters gives back the text.

  lemma {:induction false} BodyText(table: seq<Case>, lm: LineMatch, line: string)
    ensures Strip(Body(table, lm, line)) == line
    ensures Printed(Body(table, lm, line)) == line
    decreases |line|
  {
    if line != [] {
      var k := |line| - 1;
      BodyText(table, lm, line[..k]);
      ColumnFacts(table, lm, k, line[k], None);
      StripAppend(Body(table, lm, line[..k]), Column(table, lm, k, line[k]));
      assert line == line[..k] + [line[k]];
    }
  }

  lemma LineOutText(table: seq<Case>, numbered: bool, w: nat, lm: LineMatch, i: nat, line: string)
    requires numbered ==> |Digits(i + 1)| <= w
    ensures Strip(LineOut(table, numbered, w, lm, i, line)) == line + "\n"
    ensures !numbered ==> Printed(LineOut(table, numbered, w, lm, i, line)) == line + "\n"
  {
    var g := if numbered then Gutter(w, i + 1) else [];
    var b := Body(table, lm, line);
    var tail: seq<Token> := [Unset, Newline];
    assert Strip(tail) == "\n" && Printed(tail) == "\n";
    assert LineOut(table, numbered, w, lm, i, line) == g + b + tail;
    if numbered {
      GutterFacts(w, i + 1, None);
    }
    assert Strip(g) == [];
    assert !numbered ==> Printed(g) == [];
    BodyText(table, lm, line);
    StripAppend(g, b);
    StripAppend(g + b, tail);
  }

  lemma {:induction false} RenderLinesText(table: seq<Case>, numbered: bool, w: nat, matches: seq<LineMatch>, lines: seq<string>)
    requires numbered ==> |Digits(|lines|)| <= w
    ensures Strip(RenderLines(table, numbered, w, matches, lines)) == Terminated(lines)
    ensures !numbered ==> Printed(RenderLines(table, numbered, w, matches, lines)) == Terminated(lines)
    decreases |lines|
  {
    if lines != [] {
      var n := |lines| - 1;
      DigitsMonotone(n, |lines|);
      RenderLinesText(table, numbered, w, matches, lines[..n]);
      LineOutText(table, numbered, w, MatchAt(matches, n), n, lines[n]);
      StripAppend(RenderLines(table, numbered, w, matches, lines[..n]), LineOut(table, numbered, w, MatchAt(matches, n), n, lines[n]));
    }
  }

  /** Every character of the data comes out once, in order: deleting the
      colour changes and the gutters leaves the data and one final newline.
      Without numbering nothing else is printed at all. */
  lemma ColourOutputText(table: seq<Case>, numbered: bool, matches: seq<LineMatch>, data: string)
    ensures Strip(ColourOutputSpec(table, numbered, matches, data)) == data + "\n"
    ensures !numbered ==> Printed(ColourOutputSpec(table, numbered, matches, data)) == data + "\n"
  {
    RenderLinesText(table, numbered, GutterWidth(data), matches, Split(data));
    SplitTerminated(data);
  }

  // The gutter.

  /** A gutter prints w + 1 characters (padding, the number, one space),
      shows no text, and ends with colour unset. */
  lemma GutterFacts(w: nat, n: nat, cur: Option<Colour>)
    requires |Digits(n)| <= w
    ensures Printed(Gutter(w, n)) == Spaces(w - |Digits(n)|) + Digits(n) + " "
    ensures |Printed(Gutter(w, n))| == w + 1
    ensures Gutter(w, n)[|Gutter(w, n)| - 1] == Unset
    ensures Strip(Gutter(w, n)) == [] && Styled(Gutter(w, n), cur) == [] && After(Gutter(w, n), cur) == None
  {
    var spaces := Spaces(w - |Digits(n)|);
    var number := Digits(n) + " ";
    var pad := GutterChars(spaces);
    var num := GutterChars(number);
    var on: seq<Token> := [Set(Yellow)];
    var off: seq<Token> := [Unset];
    assert Gutter(w, n) == pad + on + num + off;
    GutterCharsFacts(spaces, cur);
    GutterCharsFacts(number, Some(Yellow));
    assert Strip(on) == [] && Printed(on) == [] && Styled(on, cur) == [] && After(on, cur) == Some(Yellow);
    assert Strip(off) == [] && Printed(off) == [] && Styled(off, Some(Yellow)) == [] && After(off, Some(Yellow)) == None;
    StripAppend(pad, on);
    StripAppend(pad + on, num);
    StripAppend(pad + on + num, off);
    StyledAppend(pad, on, cur);
    StyledAppend(pad + on, num, cur);
    StyledAppend(pad + on + num, off, cur);
    assert |spaces + number| == w + 1;
  }

  /** Every line number fits the width: no gutter needs negative padding,
      so every gutter of one output is equally wide. */
  lemma GutterFits(data: string, i: nat)
    requires i < |Split(data)|
    ensures |Digits(i + 1)| <= GutterWidth(data)
  {
    DigitsMonotone(i + 1, |Split(data)|);
  }

  // Colour carries forward from the last change and is reset at each line end.

  /** One column prints its character once and switches to the colour of
      the entry there, if any. */
  lemma ColumnFacts(table: seq<Case>, lm: LineMatch, col: nat, c: char, before: Option<Colour>)
    ensures Strip(Column(table, lm, col, c)) == [c] && Printed(Column(table, lm, col, c)) == [c]
    ensures var now := if col in lm then Lookup(table, lm[col]) else before;
      Styled(Column(table, lm, col, c), before) == [Cell(c, now)] && After(Column(table, lm, col, c), before) == now
  {
    var ts := Column(table, lm, col, c);
    if col in lm {
      var p := Lookup(table, lm[col]);
      assert ts == [PaintToken(p), Char(c)];
      assert ts[1..] == [Char(c)];
      var one: seq<Token> := [Char(c)];
      assert one[1..] == [];
      assert Strip(one) == [c] && Printed(one) == [c];
      assert Styled(one, p) == [Cell(c, p)] && After(one, p) == p;
      assert Strip(ts) == Strip(one) && Printed(ts) == Printed(one);
      assert Styled(ts, before) == Styled(one, p) && After(ts, before) == After(one, p);
    } else {
      assert ts == [Char(c)];
      assert ts[1..] == [];
    }
  }

  /** Each character of a line is shown in the colour of the nearest
      change at or before its column; the line leaves that colour active. */
  lemma {:induction false} BodyColours(table: seq<Case>, lm: LineMatch, line: string, cur: Option<Colour>)
    ensures Styled(Body(table, lm, line), cur) == seq(|line|, k requires 0 <= k < |line| => Cell(line[k], ColourAt(table, lm, k, cur)))
    ensures After(Body(table, lm, line), cur) == if line == [] then cur else ColourAt(table, lm, |line| - 1, cur)
    decreases |line|
  {
    if line != [] {
      var k := |line| - 1;
      var prefix := Body(table, lm, line[..k]);
      BodyColours(table, lm, line[..k], cur);
      StyledAppend(prefix, Column(table, lm, k, line[k]), cur);
      ColumnFacts(table, lm, k, line[k], After(prefix, cur));
    }
  }

  /** The expected colours of a whole output, line by line, each line
      starting uncoloured. */
  function LineCells(table: seq<Case>, lm: LineMatch, line: string): seq<Cell>
  {
    seq(|line|, k requires 0 <= k < |line| => Cell(line[k], ColourAt(table, lm, k, None)))
  }

  function ExpectedCells(table: seq<Case>, matches: seq<LineMatch>, lines: seq<string>): seq<Cell>
    decreases |lines|
  {
    if lines == [] then []
    else ExpectedCells(table, matches, lines[..|lines| - 1]) + LineCells(table, MatchAt(matches, |lines| - 1), lines[|lines| - 1])
  }

  lemma LineOutColours(table: seq<Case>, numbered: bool, w: nat, lm: LineMatch, i: nat, line: string)
    requires numbered ==> |Digits(i + 1)| <= w
    ensures Styled(LineOut(table, numbered, w, lm, i, line), None) == LineCells(table, lm, line)
    ensures After(LineOut(table, numbered, w, lm, i, line), None) == None
  {
    var g := if numbered then Gutter(w, i + 1) else [];
    var b := Body(table, lm, line);
    var tail: seq<Token> := [Unset, Newline];
    assert LineOut(table, numbered, w, lm, i, line) == g + b + tail;
    if numbered {
      GutterFacts(w, i + 1, None);
    }
    assert Styled(g, None) == [] && After(g, None) == None;
    BodyColours(table, lm, line, None);
    StyledAppend(g, b, None);
    var a := After(b, None);
    var nl: seq<Token> := [Newline];
    assert tail[1..] == nl && nl[1..] == [];
    assert Styled(nl, None) == [] && After(nl, None) == None;
    assert Styled(tail, a) == Styled(nl, None) && After(tail, a) == After(nl, None);
    StyledAppend(g + b, tail, None);
  }

  lemma {:induction false} RenderLinesColours(table: seq<Case>, numbered: bool, w: nat, matches: seq<LineMatch>, lines: seq<string>)
    requires numbered ==> |Digits(|lines|)| <= w
    ensures Styled(RenderLines(table, numbered, w, matches, lines), None) == ExpectedCells(table, matches, lines)
    ensures After(RenderLines(table, numbered, w, matches, lines), None) == None
    decreases |lines|
  {
    if lines != [] {
      var n := |lines| - 1;
      DigitsMonotone(n, |lines|);
      RenderLinesColours(table, numbered, w, matches, lines[..n]);
      LineOutColours(table, numbered, w, MatchAt(matches, n), n, lines[n]);
      StyledAppend(RenderLines(table, numbered, w, matches, lines[..n]), LineOut(table, numbered, w, MatchAt(matches, n), n, lines[n]), None);
    }
  }

  /** On an uncoloured terminal, every character of colourOutput's output
      has the colour its line's classification gives at its column (carried
      forward from the last change, uncoloured before the first), and the
      terminal is left uncoloured. */
  lemma ColourOutputColours(table: seq<Case>, numbered: bool, matches: seq<LineMatch>, data: string)
    ensures Styled(ColourOutputSpec(table, numbered, matches, data), None) == ExpectedCells(table, matches, Split(data))
    ensures After(ColourOutputSpec(table, numbered, matches, data), None) == None
  {
    RenderLinesColours(table, numbered, GutterWidth(data), matches, Split(data));
  }

  /** A numbered line prints as padding, its number, one space, the line,
      a newline: the gutter that the line-number stripping removes. */
  lemma NumberedLinePrinted(table: seq<Case>, w: nat, lm: LineMatch, i: nat, line: string)
    requires |Digits(i + 1)| <= w
    ensures Printed(LineOut(table, true, w, lm, i, line)) == NumberedLine(w, i + 1, line) + "\n"
  {
    var g := Gutter(w, i + 1);
    var b := Body(table, lm, line);
    GutterFacts(w, i + 1, None);
    BodyText(table, lm, line);
    StripAppend(g, b);
    StripAppend(g + b, [Unset, Newline]);
  }

  /** The printed lines of numbered output, colours aside: each line after
      its padded number and a space. */
  function Numbered(w: nat, lines: seq<string>): (r: seq<string>)
    requires |Digits(|lines|)| <= w
    ensures |r| == |lines|
  {
    seq(|lines|, i requires 0 <= i < |lines| =>
      DigitsMonotone(i + 1, |lines|);
      NumberedLine(w, i + 1, lines[i]))
  }

  /** Line number n padded to width w, a space, then the line. */
  function NumberedLine(w: nat, n: nat, line: string): string
    requires |Digits(n)| <= w
  {
    Spaces(w - |Digits(n)|) + Digits(n) + " " + line
  }

  /** With -ln, what reaches the terminal is the numbered lines, each with
      a newline. */
  lemma {:induction false} RenderLinesPrinted(table: seq<Case>, w: nat, matches: seq<LineMatch>, lines: seq<string>)
    requires |Digits(|lines|)| <= w
    ensures Printed(RenderLines(table, true, w, matches, lines)) == Terminated(Numbered(w, lines))
    decreases |lines|
  {
    if lines != [] {
      var n := |lines| - 1;
      DigitsMonotone(n, |lines|);
      RenderLinesPrinted(table, w, matches, lines[..n]);
      var xs := Numbered(w, lines);
      var before := RenderLines(table, true, w, matches, lines[..n]);
      var line := LineOut(table, true, w, MatchAt(matches, n), n, lines[n]);
      assert RenderLines(table, true, w, matches, lines) == before + line;
      assert xs[..n] == Numbered(w, lines[..n]);
      StripAppend(before, line);
      NumberedLinePrinted(table, w, MatchAt(matches, n), n, lines[n]);
      assert xs[n] == NumberedLine(w, n + 1, lines[n]);
      assert Terminated(xs) == Terminated(xs[..n]) + xs[n] + "\n";
    }
  }
}
