/** The `super-zaje` command (cmd/super-zaje/super-zaje.go): zaje's
    Action plus an image branch, where the text an OCR engine reads off the
    image replaces the data, optionally with its line numbers removed. */
module SuperZaje {
  import opened Wrappers
  import opened Text
  import opened Terminal
  import opened Engine
  import opened Render
  import opened Resolver
  import opened Input
  import opened Pipeline
  import opened Zaje
  import Cli

  // The character classes of Go's regexp (RE2) syntax.

  /** \s: tab, newline, form feed, carriage return, space. */
  predicate IsSpace(c: char)
  {
    c == '\t' || c == '\n' || c == '\U{000C}' || c == '\r' || c == ' '
  }

  /** \s without the newline. */
  predicate IsBlank(c: char)
  {
    IsSpace(c) && c != '\n'
  }

  /** What `.` matches without the s flag: anything but a newline. */
  predicate NotNewline(c: char)
  {
    c != '\n'
  }

  /** The end of the longest run of characters from p on that satisfy P:
      what a greedy `P*` consumes. */
  function SpanEnd(t: string, p: nat, P: char -> bool): (q: nat)
    requires p <= |t|
    ensures p <= q <= |t|
    ensures forall k :: p <= k < q ==> P(t[k])
    ensures q == |t| || !P(t[q])
    decreases |t| - p
  {
    if p == |t| || !P(t[p]) then p else SpanEnd(t, p + 1, P)
  }

  // The replacement as written: (?m)^\s*\d+\s(.*) replaced by $1 over the
  // whole OCR text.

  /** A match of (?m)^\s*\d+\s(.*) starting at p: its end and the group.
      ^ holds at the start of the text and after every newline. Backtracking
      cannot do better than the greedy runs here: a shorter \s* run is
      followed by a space, not a digit, and a shorter \d+ run by a digit,
      not a space; so the pattern matches exactly when the maximal \s
      run is followed by digits and then by one \s character, which may be
      a newline, and (.*) then takes the rest of the following line. */
  function NumberMatch(t: string, p: nat): (m: Option<(nat, string)>)
    requires p <= |t|
    ensures m.Some? ==> p < m.value.0 <= |t|
  {
    if !LineStart(t, p) then None
    else
      var w := SpanEnd(t, p, IsSpace);
      var d := SpanEnd(t, w, IsDigit);
      if d == w || d == |t| || !IsSpace(t[d]) then None
      else
        var e := SpanEnd(t, d + 1, NotNewline);
        Some((e, t[d + 1..e]))
  }

  /** ReplaceAllString from position p: each match is replaced by its group
      and the search resumes where it ended; elsewhere characters are
      copied. */
  function ReplaceFrom(t: string, p: nat): string
    requires p <= |t|
    decreases |t| - p
  {
    if p == |t| then ""
    else
      match NumberMatch(t, p)
      case Some((e, g)) => g + ReplaceFrom(t, e)
      case None => [t[p]] + ReplaceFrom(t, p + 1)
  }

  /** reLineNumber.ReplaceAllString(text, "$1"), as written. */
  function ReplaceAsWritten(t: string): string
  {
    ReplaceFrom(t, 0)
  }

  // The replacement as intended: each line on its own.

  /** A line made of blanks, digits, one blank and a rest becomes the rest;
      any other line is kept. */
  function StripLine(l: string): string
  {
    var w := SpanEnd(l, 0, IsBlank);
    var d := SpanEnd(l, w, IsDigit);
    if d == w || d == |l| || !IsBlank(l[d]) then l else l[d + 1..]
  }

  /** Every line of the text with its leading number removed. */
  function StripLineNumbers(t: string): string
  {
    var lines := Split(t);
    Join(seq(|lines|, i requires 0 <= i < |lines| => StripLine(lines[i])))
  }

  /** The as-written replacement merges a line holding only a number with
      the line after it: the \s after the digits consumes the newline. */
  lemma AsWrittenMergesLines()
    ensures ReplaceAsWritten("10\n11 x") == "11 x"
  {
    var t := "10\n11 x";
    assert SpanEnd(t, 0, IsSpace) == 0;
    assert SpanEnd(t, 2, IsDigit) == 2;
    assert SpanEnd(t, 1, IsDigit) == 2;
    assert SpanEnd(t, 0, IsDigit) == 2;
    assert SpanEnd(t, 3, NotNewline) == 7 by {
      assert SpanEnd(t, 7, NotNewline) == 7;
      assert SpanEnd(t, 6, NotNewline) == 7;
      assert SpanEnd(t, 5, NotNewline) == 7;
      assert SpanEnd(t, 4, NotNewline) == 7;
    }
    assert IsSpace(t[2]) && t[3..7] == "11 x";
    assert NumberMatch(t, 0) == Some((7, "11 x"));
    assert ReplaceFrom(t, 7) == "";
  }

  /** The as-written replacement also drops an empty line in front of a
      numbered line: ^ holds after the first newline, and \s* runs on
      through the second one to the number. */
  lemma AsWrittenDropsBlankLine(t: string)
    requires t == "1 a\n\n3 c"
    ensures ReplaceAsWritten(t) == "a\nc"
  {
    BlankLineMatches(t);
    BlankLineSkipped(t);
    assert ReplaceFrom(t, 8) == "";
    ReplaceMatched(t, 4, 8, "c");
    ReplaceCopied(t, 3, 4);
    ReplaceMatched(t, 0, 3, "a");
  }

  /** The first line is stripped, and its newline is copied. */
  lemma BlankLineMatches(t: string)
    requires t == "1 a\n\n3 c"
    ensures NumberMatch(t, 0) == Some((3, "a"))
    ensures NumberMatch(t, 3) == None
  {
    assert SpanEnd(t, 0, IsSpace) == 0;
    assert SpanEnd(t, 1, IsDigit) == 1;
    assert SpanEnd(t, 3, NotNewline) == 3;
    assert IsSpace(t[1]) && t[2..3] == "a";
    MatchAtLineStart(t, 0, 0, 1);
  }

  /** After the empty line, \s* starts at its newline and runs to "3". */
  lemma BlankLineSkipped(t: string)
    requires t == "1 a\n\n3 c"
    ensures NumberMatch(t, 4) == Some((8, "c"))
  {
    assert SpanEnd(t, 5, IsSpace) == 5;
    assert SpanEnd(t, 6, IsDigit) == 6;
    assert SpanEnd(t, 8, NotNewline) == 8;
    assert LineStart(t, 4) && IsSpace(t[6]) && t[7..8] == "c";
    MatchAtLineStart(t, 4, 5, 6);
  }

  /** A greedy run is exactly the stretch of characters satisfying P
      that ends at the first one that does not. */
  lemma {:induction false} SpanEndExact(t: string, p: nat, q: nat, P: char -> bool)
    requires p <= q <= |t|
    requires forall k :: p <= k < q ==> P(t[k])
    requires q == |t| || !P(t[q])
    ensures SpanEnd(t, p, P) == q
    decreases q - p
  {
    if p < q {
      SpanEndExact(t, p + 1, q, P);
    }
  }

  /** Stripping undoes the gutter zaje prints with -ln: padding, the
      number, one space, then the line. */
  lemma StripLineGutter(k: nat, n: nat, line: string)
    ensures StripLine(Spaces(k) + Digits(n) + " " + line) == line
    ensures !NumberOnly(Spaces(k) + Digits(n) + " " + line)
  {
    var digits := Digits(n);
    var l := Spaces(k) + digits + " " + line;
    DigitsValue(n);
    assert l[k] == digits[0];
    SpanEndExact(l, 0, k, IsBlank);
    assert l[k + |digits|] == ' ';
    SpanEndExact(l, k, k + |digits|, IsDigit);
    assert l[k + |digits| + 1..] == line;
  }

  /** A line holding only a number (after optional padding) is kept: no
      blank follows the digits. */
  lemma StripLineBareNumber(k: nat, n: nat)
    ensures StripLine(Spaces(k) + Digits(n)) == Spaces(k) + Digits(n)
  {
    var digits := Digits(n);
    var l := Spaces(k) + digits;
    DigitsValue(n);
    assert l[k] == digits[0];
    SpanEndExact(l, 0, k, IsBlank);
    SpanEndExact(l, k, |l|, IsDigit);
  }

  /** The corrected replacement works line by line: the lines of the
      result are the stripped lines of the input, as many as there were. */
  lemma StripLineNumbersPerLine(t: string)
    ensures var lines := Split(t);
      Split(StripLineNumbers(t)) == seq(|lines|, i requires 0 <= i < |lines| => StripLine(lines[i]))
  {
    var lines := Split(t);
    var stripped := seq(|lines|, i requires 0 <= i < |lines| => StripLine(lines[i]));
    SplitPiecesHaveNoNewline(t);
    forall i | 0 <= i < |stripped|
      ensures NoNewline(stripped[i])
    {
      var l := lines[i];
      var w := SpanEnd(l, 0, IsBlank);
      var d := SpanEnd(l, w, IsDigit);
      if !(d == w || d == |l| || !IsBlank(l[d])) {
        assert forall c :: c in l[d + 1..] ==> c in l;
      }
    }
    SplitJoin(stripped);
  }

  lemma ExampleLines(t: string)
    requires t == "10\n11 x"
    ensures Split(t) == ["10", "11 x"]
  {
    var pieces := ["10", "11 x"];
    assert Join(pieces) == t by {
      assert pieces[..1] == ["10"];
    }
    assert NoNewline(pieces[0]) && NoNewline(pieces[1]);
    SplitJoin(pieces);
  }

  lemma ExampleStrips()
    ensures StripLine("10") == "10" && StripLine("11 x") == "x"
  {
    assert Spaces(0) + Digits(10) == "10";
    StripLineBareNumber(0, 10);
    assert Spaces(0) + Digits(11) + " " + "x" == "11 x";
    StripLineGutter(0, 11, "x");
  }

  /** The per-line replacement keeps the number-only line and strips the
      numbered one. */
  lemma CorrectedKeepsLines(t: string)
    requires t == "10\n11 x"
    ensures StripLineNumbers(t) == "10\nx"
  {
    var lines := Split(t);
    ExampleLines(t);
    ExampleStrips();
    var stripped := seq(|lines|, i requires 0 <= i < |lines| => StripLine(lines[i]));
    assert stripped == ["10", "x"];
    assert Join(stripped) == "10\nx" by {
      assert stripped[..1] == ["10"];
    }
  }

  lemma BlankExampleLines(t: string)
    requires t == "1 a\n\n3 c"
    ensures Split(t) == ["1 a", "", "3 c"]
  {
    var pieces := ["1 a", "", "3 c"];
    assert Join(pieces) == t by {
      assert pieces[..2][..1] == ["1 a"];
      assert pieces[..2] == ["1 a", ""];
    }
    assert NoNewline(pieces[0]) && NoNewline(pieces[1]) && NoNewline(pieces[2]);
    SplitJoin(pieces);
  }

  lemma BlankExampleStrips()
    ensures StripLine("1 a") == "a" && StripLine("") == "" && StripLine("3 c") == "c"
  {
    assert Spaces(0) + Digits(1) + " " + "a" == "1 a";
    StripLineGutter(0, 1, "a");
    assert Spaces(0) + Digits(3) + " " + "c" == "3 c";
    StripLineGutter(0, 3, "c");
  }

  /** The per-line replacement keeps the empty line. */
  lemma CorrectedKeepsBlankLine(t: string)
    requires t == "1 a\n\n3 c"
    ensures StripLineNumbers(t) == "a\n\nc"
  {
    BlankExampleLines(t);
    StripThree(t, "1 a", "", "3 c");
    BlankExampleStrips();
    JoinThree("a", "", "c");
  }

  lemma StripThree(t: string, x: string, y: string, z: string)
    requires Split(t) == [x, y, z]
    ensures StripLineNumbers(t) == Join([StripLine(x), StripLine(y), StripLine(z)])
  {
    var lines := Split(t);
    var stripped := seq(|lines|, i requires 0 <= i < |lines| => StripLine(lines[i]));
    assert stripped == [StripLine(x), StripLine(y), StripLine(z)];
  }

  lemma JoinThree(x: string, y: string, z: string)
    ensures Join([x, y, z]) == x + "\n" + y + "\n" + z
  {
    var xs := [x, y, z];
    assert xs[..2] == [x, y] && [x, y][..1] == [x];
    assert Join([x]) == x;
    assert Join([x, y]) == x + "\n" + y;
    assert Join(xs) == Join([x, y]) + "\n" + z;
  }

  /** On a text without newlines \s and the blank class coincide. */
  lemma SpacesAreBlanks(t: string, p: nat)
    requires p <= |t| && NoNewline(t)
    ensures SpanEnd(t, p, IsSpace) == SpanEnd(t, p, IsBlank)
  {
    var q := SpanEnd(t, p, IsSpace);
    assert q < |t| ==> t[q] != '\n';
    forall k | p <= k < q
      ensures IsBlank(t[k])
    {
      assert t[k] != '\n';
    }
    SpanEndExact(t, p, q, IsBlank);
  }

  /** ^ holds at p: the start of the text or just after a newline. */
  predicate LineStart(t: string, p: nat)
    requires p <= |t|
  {
    p == 0 || t[p - 1] == '\n'
  }

  /** A line of blanks and then digits only, either run possibly empty: the
      pattern's \s* or its \s runs into the newline that ends such a line. */
  predicate NumberOnly(l: string)
  {
    SpanEnd(l, SpanEnd(l, 0, IsBlank), IsDigit) == |l|
  }

  /** The line t[p..k]: it starts at a line start and ends at a newline or
      at the end of the text. */
  predicate IsLine(t: string, p: nat, k: nat)
  {
    p <= k <= |t| && LineStart(t, p) && (forall j :: p <= j < k ==> t[j] != '\n') && (k == |t| || t[k] == '\n')
  }

  /** Within a line, past its first character, ^ never holds, so the rest
      of the line is copied. */
  lemma {:induction false} CopiedInLine(t: string, p: nat, k: nat, q: nat)
    requires p < q <= k <= |t| && forall j :: p <= j < k ==> t[j] != '\n'
    ensures ReplaceFrom(t, q) == t[q..k] + ReplaceFrom(t, k)
    decreases k - q
  {
    if q < k {
      ReplaceCopied(t, q, q + 1);
      CopiedInLine(t, p, k, q + 1);
      SliceCons(t, q, k);
      Regroup3([t[q]], t[q + 1..k], ReplaceFrom(t, k));
    }
  }

  /** The match at a line start, in terms of the runs the pattern takes. */
  lemma MatchAtLineStart(t: string, q: nat, w: nat, d: nat)
    requires q <= |t| && LineStart(t, q)
    requires w == SpanEnd(t, q, IsSpace) && d == SpanEnd(t, w, IsDigit)
    ensures d == w || d == |t| || !IsSpace(t[d]) ==> NumberMatch(t, q) == None
    ensures !(d == w || d == |t| || !IsSpace(t[d])) ==>
      NumberMatch(t, q) == Some((SpanEnd(t, d + 1, NotNewline), t[d + 1..SpanEnd(t, d + 1, NotNewline)]))
  {
  }

  /** Where the pattern matches, its group replaces the match. */
  lemma ReplaceMatched(t: string, q: nat, e: nat, g: string)
    requires q < |t| && NumberMatch(t, q) == Some((e, g))
    ensures ReplaceFrom(t, q) == g + ReplaceFrom(t, e)
  {
  }

  /** Where the pattern does not match, one character is copied. */
  lemma ReplaceCopied(t: string, q: nat, next: nat)
    requires q < |t| && NumberMatch(t, q) == None && next == q + 1
    ensures ReplaceFrom(t, q) == [t[q]] + ReplaceFrom(t, next)
  {
  }

  /** Inside the line t[p..k] = l the runs of \s and \d+ from p end where
      the line's blank and digit runs end, unless the digits reach the end
      of a line that a newline follows. */
  lemma SpansInLine(t: string, p: nat, k: nat, l: string, w: nat, d: nat)
    requires IsLine(t, p, k) && l == t[p..k]
    requires w == SpanEnd(l, 0, IsBlank) && d == SpanEnd(l, w, IsDigit)
    requires d == |l| ==> k == |t|
    ensures SpanEnd(t, p, IsSpace) == p + w && SpanEnd(t, p + w, IsDigit) == p + d
  {
    assert forall j :: p <= j < k ==> t[j] == l[j - p];
    assert p + w < k ==> t[p + w] == l[w] && t[p + w] != '\n';
    SpanEndExact(t, p, p + w, IsSpace);
    assert p + d < k ==> t[p + d] == l[d];
    SpanEndExact(t, p + w, p + d, IsDigit);
  }

  /** At the start of the line t[p..k] = l, not number-only unless it is the
      last, the pattern matches exactly when the per-line strip applies, and
      (.*) runs to the end of the line. */
  lemma LineMatch(t: string, p: nat, k: nat, l: string, w: nat, d: nat)
    requires IsLine(t, p, k) && l == t[p..k] && (k < |t| ==> !NumberOnly(l))
    requires w == SpanEnd(l, 0, IsBlank) && d == SpanEnd(l, w, IsDigit)
    ensures d == w || d == |l| || !IsBlank(l[d]) ==> NumberMatch(t, p) == None
    ensures !(d == w || d == |l| || !IsBlank(l[d])) ==> NumberMatch(t, p) == Some((k, l[d + 1..]))
  {
    SpansInLine(t, p, k, l, w, d);
    MatchAtLineStart(t, p, p + w, p + d);
    if d < |l| {
      RestOfLine(t, p, k, l, d);
    }
  }

  /** Past position d of the line t[p..k] = l, (.*) takes the rest of the
      line, and the character at d is the line's. */
  lemma RestOfLine(t: string, p: nat, k: nat, l: string, d: nat)
    requires IsLine(t, p, k) && l == t[p..k] && d < |l|
    ensures t[p + d] == l[d] && t[p + d] != '\n'
    ensures SpanEnd(t, p + d + 1, NotNewline) == k && t[p + d + 1..k] == l[d + 1..]
  {
    SpanEndExact(t, p + d + 1, k, NotNewline);
  }

  /** The per-line strip, in terms of the runs it takes. */
  lemma StripLineRuns(l: string, w: nat, d: nat)
    requires w == SpanEnd(l, 0, IsBlank) && d == SpanEnd(l, w, IsDigit)
    ensures d == w || d == |l| || !IsBlank(l[d]) ==> StripLine(l) == l
    ensures !(d == w || d == |l| || !IsBlank(l[d])) ==> StripLine(l) == l[d + 1..]
  {
  }

  /** Such a line l = t[p..k] comes out of the replacement as written as
      the per-line strip leaves it, and the replacement goes on at the
      line's end. */
  lemma LineStep(t: string, p: nat, k: nat, l: string)
    requires IsLine(t, p, k) && l == t[p..k] && (k < |t| ==> !NumberOnly(l))
    ensures ReplaceFrom(t, p) == StripLine(l) + ReplaceFrom(t, k)
  {
    if p < k {
      var w := SpanEnd(l, 0, IsBlank);
      var d := SpanEnd(l, w, IsDigit);
      LineMatch(t, p, k, l, w, d);
      StripLineRuns(l, w, d);
      if d == w || d == |l| || !IsBlank(l[d]) {
        ReplaceCopied(t, p, p + 1);
        CopiedInLine(t, p, k, p + 1);
        SliceCons(t, p, k);
        Regroup3([t[p]], t[p + 1..k], ReplaceFrom(t, k));
      } else {
        ReplaceMatched(t, p, k, l[d + 1..]);
      }
    } else {
      assert l == [];
    }
  }

  /** On a single line the replacement as written does what the corrected
      one does: the two differ only across lines. */
  lemma AsWrittenAgreesOnOneLine(t: string)
    requires NoNewline(t)
    ensures ReplaceAsWritten(t) == StripLine(t)
  {
    assert t[0..|t|] == t;
    NoNewlineSlice(t, 0, |t|);
    LineStep(t, 0, |t|, t);
  }

  /** No line before the last is number-only. */
  predicate NoNumberOnlyLine(t: string)
  {
    forall i :: 0 <= i < |Split(t)| - 1 ==> !NumberOnly(Split(t)[i])
  }

  /** The text u after a line start p begins with a line l = t[p..k]: its
      first line, ended by a newline or by the end of the text. */
  lemma FirstLineAt(t: string, p: nat, u: string, l: string, k: nat)
    requires p <= |t| && LineStart(t, p) && u == t[p..] && l == FirstLine(u) && k == p + |l|
    ensures IsLine(t, p, k) && l == t[p..k] && NoNewline(l)
    ensures k == |t| ==> u == l
    ensures k < |t| ==> u == l + "\n" + t[k + 1..]
  {
    FirstLineIsPrefix(u);
    assert t[p..k] == l;
    NoNewlineSlice(t, p, k);
    if k < |t| {
      assert t[k] == u[|l|];
      assert u == l + "\n" + t[k + 1..];
    }
  }

  /** Splitting off a first line: the rest keeps the property, and the
      first line is not number-only when a newline follows it. */
  lemma NoNumberOnlyCons(u: string, l: string, r: string)
    requires u == l + "\n" + r && NoNewline(l) && NoNumberOnlyLine(u)
    ensures !NumberOnly(l) && NoNumberOnlyLine(r)
  {
    SplitCons(l, r);
    var rs := Split(r);
    var lines := Split(u);
    assert lines == [l] + rs;
    assert lines[0] == l && 0 < |lines| - 1;
    forall i | 0 <= i < |rs| - 1
      ensures !NumberOnly(rs[i])
    {
      assert rs[i] == lines[i + 1];
    }
  }

  /** The per-line strip handles the first line on its own. */
  lemma StripLinesCons(u: string, l: string, r: string)
    requires u == l + "\n" + r && NoNewline(l)
    ensures StripLineNumbers(u) == StripLine(l) + "\n" + StripLineNumbers(r)
  {
    SplitCons(l, r);
    var rs := Split(r);
    var lines := Split(u);
    assert lines == [l] + rs;
    var sr := seq(|rs|, i requires 0 <= i < |rs| => StripLine(rs[i]));
    var sl := seq(|lines|, i requires 0 <= i < |lines| => StripLine(lines[i]));
    assert sl == [StripLine(l)] + sr;
    JoinCons(StripLine(l), sr);
  }

  /** A text without newlines is stripped as one line. */
  lemma StripOneLine(t: string)
    requires NoNewline(t)
    ensures StripLineNumbers(t) == StripLine(t)
  {
    SplitPlain(t);
  }

  /** A newline makes the position after it a line start. */
  lemma NextLineStart(t: string, k: nat)
    requires k < |t| && t[k] == '\n'
    ensures LineStart(t, k + 1)
  {
  }

  /** The newline that ends a line is copied. */
  lemma NewlineCopied(t: string, p: nat, k: nat)
    requires IsLine(t, p, k) && p < k < |t|
    ensures ReplaceFrom(t, k) == "\n" + ReplaceFrom(t, k + 1)
  {
    assert t[k - 1] != '\n';
    ReplaceCopied(t, k, k + 1);
  }

  /** From a line start p on, the replacement as written strips the lines of
      the rest u = t[p..] one by one, as long as no line but the last is
      number-only. */
  lemma {:induction false} AgreesFrom(t: string, p: nat, u: string)
    requires p <= |t| && LineStart(t, p) && u == t[p..] && NoNumberOnlyLine(u)
    ensures ReplaceFrom(t, p) == StripLineNumbers(u)
    decreases |t| - p
  {
    var l := FirstLine(u);
    var k := p + |l|;
    FirstLineAt(t, p, u, l, k);
    if k == |t| {
      LastLineAgrees(t, p, u, l, k);
    } else {
      var r := t[k + 1..];
      assert !NumberOnly(l) && NoNumberOnlyLine(r) && LineStart(t, k + 1) by {
        NoNumberOnlyCons(u, l, r);
        NextLineStart(t, k);
      }
      AgreesFrom(t, k + 1, r);
      NextLineAgrees(t, p, u, l, k, r);
    }
  }

  /** The last line of the text: the replacement strips it alone. */
  lemma LastLineAgrees(t: string, p: nat, u: string, l: string, k: nat)
    requires IsLine(t, p, k) && l == t[p..k] && NoNewline(l)
    requires k == |t| && u == l
    ensures ReplaceFrom(t, p) == StripLineNumbers(u)
  {
    LineStep(t, p, k, l);
    StripOneLine(l);
    assert ReplaceFrom(t, k) == "";
    Glue(ReplaceFrom(t, p), StripLine(l), ReplaceFrom(t, k), "", "", StripLineNumbers(u));
  }

  /** A line followed by more text: its strip, the copied newline, then
      whatever the rest r turns into. */
  lemma NextLineAgrees(t: string, p: nat, u: string, l: string, k: nat, r: string)
    requires IsLine(t, p, k) && l == t[p..k] && NoNewline(l) && !NumberOnly(l)
    requires k < |t| && u == l + "\n" + r && r == t[k + 1..]
    requires ReplaceFrom(t, k + 1) == StripLineNumbers(r)
    ensures ReplaceFrom(t, p) == StripLineNumbers(u)
  {
    StripLinesCons(u, l, r);
    assert p < k;
    NewlineCopied(t, p, k);
    LineStep(t, p, k, l);
    Glue(ReplaceFrom(t, p), StripLine(l), ReplaceFrom(t, k), "\n", ReplaceFrom(t, k + 1), StripLineNumbers(u));
  }

  /** Text glued from the same pieces is the same text. */
  lemma Glue(a: string, x: string, b: string, sep: string, y: string, z: string)
    requires a == x + b && b == sep + y && z == x + sep + y
    ensures a == z
  {
  }

  /** The replacement as written is the per-line strip on every text in
      which no line followed by a newline is made of blanks and digits
      alone: only at such a line does \s reach across a newline. */
  lemma AsWrittenAgrees(t: string)
    requires NoNumberOnlyLine(t)
    ensures ReplaceAsWritten(t) == StripLineNumbers(t)
  {
    assert t[0..] == t;
    AgreesFrom(t, 0, t);
  }

  // Numbering and un-numbering.

  lemma NumberedLineNoNewline(w: nat, n: nat, line: string)
    requires |Digits(n)| <= w && NoNewline(line)
    ensures NoNewline(NumberedLine(w, n, line))
  {
    DigitsValue(n);
    assert '\n' !in Spaces(w - |Digits(n)|);
    assert '\n' !in Digits(n);
  }

  /** Each numbered line strips back to its line. */
  lemma StripNumbered(w: nat, lines: seq<string>, i: nat)
    requires |Digits(|lines|)| <= w && i < |lines|
    ensures StripLine(Numbered(w, lines)[i]) == lines[i]
  {
    DigitsMonotone(i + 1, |lines|);
    assert Numbered(w, lines)[i] == NumberedLine(w, i + 1, lines[i]);
    StripLineGutter(w - |Digits(i + 1)|, i + 1, lines[i]);
  }

  /** The lines of zaje's numbered output: one numbered line per data line,
      then the empty piece after the final newline. */
  lemma NumberedOutputSplits(table: seq<Case>, matches: seq<LineMatch>, data: string)
    ensures Split(Printed(ColourOutputSpec(table, true, matches, data)))
      == Numbered(GutterWidth(data), Split(data)) + [""]
  {
    var lines := Split(data);
    var w := GutterWidth(data);
    RenderLinesPrinted(table, w, matches, lines);
    var xs := Numbered(w, lines);
    var pieces := xs + [""];
    TerminatedJoin(xs);
    assert pieces[..|xs|] == xs;
    assert Join(pieces) == Terminated(xs);
    SplitPiecesHaveNoNewline(data);
    forall i | 0 <= i < |pieces|
      ensures NoNewline(pieces[i])
    {
      if i < |xs| {
        DigitsMonotone(i + 1, |lines|);
        NumberedLineNoNewline(w, i + 1, lines[i]);
      }
    }
    SplitJoin(pieces);
  }

  /** The corrected replacement undoes the numbering: each numbered line
      strips back to its data line. */
  lemma StripUndoesNumbering(table: seq<Case>, matches: seq<LineMatch>, data: string)
    ensures StripLineNumbers(Printed(ColourOutputSpec(table, true, matches, data))) == data + "\n"
  {
    var lines := Split(data);
    var w := GutterWidth(data);
    var pieces := Numbered(w, lines) + [""];
    NumberedOutputSplits(table, matches, data);
    var stripped := seq(|pieces|, i requires 0 <= i < |pieces| => StripLine(pieces[i]));
    forall i | 0 <= i < |pieces|
      ensures stripped[i] == (lines + [""])[i]
    {
      if i < |lines| {
        assert pieces[i] == Numbered(w, lines)[i];
        StripNumbered(w, lines, i);
      } else {
        assert pieces[i] == "";
      }
    }
    assert stripped == lines + [""];
    assert (lines + [""])[..|lines|] == lines;
    JoinSplit(data);
  }

  /** No numbered line is number-only: the gutter's number is followed by
      a space before the end of the line. */
  lemma NumberedHasNoNumberOnlyLine(table: seq<Case>, matches: seq<LineMatch>, data: string)
    ensures NoNumberOnlyLine(Printed(ColourOutputSpec(table, true, matches, data)))
  {
    var lines := Split(data);
    var w := GutterWidth(data);
    var xs := Numbered(w, lines);
    NumberedOutputSplits(table, matches, data);
    forall i | 0 <= i < |xs|
      ensures !NumberOnly(xs[i])
    {
      DigitsMonotone(i + 1, |lines|);
      assert xs[i] == NumberedLine(w, i + 1, lines[i]);
      StripLineGutter(w - |Digits(i + 1)|, i + 1, lines[i]);
    }
    assert forall i :: 0 <= i < |xs| ==> (xs + [""])[i] == xs[i];
  }

  /** super-zaje -rln undoes zaje -ln: when the OCR text is exactly what
      numbered output prints, the replacement as written gives back the data
      (with the final newline colourOutput adds). No gutter line is
      number-only, so the pattern never reaches across a newline there, and
      the replacement agrees with the corrected one. A data line that
      itself starts with a number and a blank keeps it: only the gutter
      goes. */
  lemma RemoveUndoesAdd(table: seq<Case>, matches: seq<LineMatch>, data: string)
    ensures ReplaceAsWritten(Printed(ColourOutputSpec(table, true, matches, data))) == data + "\n"
    ensures StripLineNumbers(Printed(ColourOutputSpec(table, true, matches, data))) == data + "\n"
  {
    StripUndoesNumbering(table, matches, data);
    NumberedHasNoNumberOnlyLine(table, matches, data);
    AsWrittenAgrees(Printed(ColourOutputSpec(table, true, matches, data)));
  }

  // The Action.

  /** The data super-zaje hands to HandleData for a named argument: data
      sniffed as an image is replaced by the text OCR reads off it (None when
      OCR fails, a panic), with the line numbers removed when -rln is set;
      anything else is kept. */
  function Prepared(env: Env, removeLineNumbers: bool, arg: string, data: string): Option<string>
  {
    if "image" <= env.contentType(data) then
      match env.ocr(arg)
      case None => None
      case Some(text) => Some(if removeLineNumbers then ReplaceAsWritten(text) else text)
    else Some(data)
  }

  /** What the Action does, from the session's state before it: zaje's
      Action with the image branch in the named case. */
  function ActionSpec(env: Env, cfg: Config, removeLineNumbers: bool, st: ResolverState, stdin: Stdin, args: seq<string>): Outcome
  {
    match Dispatch(stdin.isPipe, args)
    case Named(arg) =>
      (match Fetch(env, arg)
       case None => Crash(st)
       case Some(data) =>
         (match Prepared(env, removeLineNumbers, arg, data)
          case None => Crash(st)
          case Some(d) => Single(HandleStep(env, cfg, st, arg, d))))
    case _ => Cli.ActionSpec(env, cfg, st, stdin, args)
  }

  /** app.Action of super-zaje, on the library's session. */
  method Action(s: Session, env: Env, stdin: Stdin, args: seq<string>) returns (result: ActionResult)
    requires EngineCovers(env)
    modifies s`synDir, s`def, s`out, s`calls
    ensures var o := ActionSpec(env, s.Cfg(), s.removeLineNumbers, old(s.State()), stdin, args);
      result == o.result && s.State() == o.run.state && s.out == old(s.out) + o.run.out && s.calls == old(s.calls) + o.run.calls
  {
    var filename := "";
    if !stdin.isPipe {
      if |args| < 1 {
        return Err(Cli.NoInputMessage);
      }
      filename := args[0];
      var data: string;
      if IsUrl(filename) {
        var resp := env.httpGet(filename);
        if resp.None? {
          return Exit;
        }
        data := resp.value;
      } else {
        data := FileData(env, filename);
      }
      assert Fetch(env, filename) == Some(data);
      ghost var fetched := data;
      if "image" <= env.contentType(data) {
        var text := env.ocr(filename);
        if text.None? {
          return Exit;
        }
        var t := text.value;
        if s.removeLineNumbers {
          t := ReplaceAsWritten(t);
        }
        data := t;
      }
      assert Prepared(env, s.removeLineNumbers, filename, fetched) == Some(data);
      var alive := s.HandleData(env, filename, data);
      return if alive then Ok else Exit;
    }
    if FirstArg(args) == "-" {
      ghost var st := s.State();
      ghost var out0 := s.out;
      ghost var calls0 := s.calls;
      var i := 0;
      while i < |stdin.scanned|
        invariant 0 <= i <= |stdin.scanned|
        invariant var r := RunLines(env, s.Cfg(), st, filename, stdin.scanned[..i]);
          r.alive && s.State() == r.state && s.out == out0 + r.out && s.calls == calls0 + r.calls
      {
        ghost var prev := RunLines(env, s.Cfg(), st, filename, stdin.scanned[..i]);
        ghost var h := HandleStep(env, s.Cfg(), prev.state, filename, stdin.scanned[i]);
        RunLinesStep(env, s.Cfg(), st, filename, stdin.scanned, i);
        var alive := s.HandleData(env, filename, stdin.scanned[i]);
        Regroup3(out0, prev.out, h.out);
        Regroup3(calls0, prev.calls, h.calls);
        if !alive {
          RunLinesStopped(env, s.Cfg(), st, filename, stdin.scanned, i + 1);
          return Exit;
        }
        i := i + 1;
      }
      assert stdin.scanned[..i] == stdin.scanned;
      if stdin.scanError.Some? {
        return Err(stdin.scanError.value);
      }
      return Ok;
    }
    if stdin.all.None? {
      return Exit;
    }
    var alive := s.HandleData(env, filename, stdin.all.value);
    return if alive then Ok else Exit;
  }

  // What the image branch changes.

  /** Apart from a named argument whose data sniffs as an image, super-zaje
      does exactly what zaje does. */
  lemma SameAsZajeUnlessImage(env: Env, cfg: Config, removeLineNumbers: bool, st: ResolverState, stdin: Stdin, args: seq<string>)
    requires stdin.isPipe || |args| == 0 || Fetch(env, args[0]).None? || !("image" <= env.contentType(Fetch(env, args[0]).value))
    ensures ActionSpec(env, cfg, removeLineNumbers, st, stdin, args) == Cli.ActionSpec(env, cfg, st, stdin, args)
  {
  }

  /** An image is never highlighted itself: HandleData gets the OCR text,
      once, with the argument as filename hint, and -rln removes the line
      numbers from that text only. A failed OCR ends the process before
      HandleData. */
  lemma ImageReplacedByOcr(env: Env, cfg: Config, removeLineNumbers: bool, st: ResolverState, stdin: Stdin, args: seq<string>, data: string)
    requires !stdin.isPipe && |args| >= 1
    requires Fetch(env, args[0]) == Some(data) && "image" <= env.contentType(data)
    ensures var o := ActionSpec(env, cfg, removeLineNumbers, st, stdin, args);
      env.ocr(args[0]).None? ==> o.result == Exit && o.run.calls == [] && o.run.out == [] && o.run.state == st
    ensures var o := ActionSpec(env, cfg, removeLineNumbers, st, stdin, args);
      env.ocr(args[0]).Some? ==>
        var text := env.ocr(args[0]).value;
        var d := if removeLineNumbers then ReplaceAsWritten(text) else text;
        o.run.calls == [Call(args[0], d)] &&
        (o.run.alive ==> o.result == Ok && Strip(o.run.out) == d + "\n")
  {
    var arg := args[0];
    match env.ocr(arg)
    case None =>
    case Some(text) =>
      var d := if removeLineNumbers then ReplaceAsWritten(text) else text;
      HandleStepText(env, cfg, st, arg, d);
  }
}
