/** What the renderer writes to the terminal, one token per call: a text
    character, a character of the line-number gutter, a colour switched on
    (color.Set), colour switched off (color.Unset), or a newline. Escape
    bytes are not modelled; the tokens are the calls that produce them. */
module Terminal {
  import opened Wrappers

  /** The foreground colours the renderer uses. */
  datatype Colour = Green | HiBlue | HiRed | Red | Cyan | HiMagenta | Yellow | HiGreen

  datatype Token = Char(c: char) | GutterChar(g: char) | Set(colour: Colour) | Unset | Newline

  /** A text character with the colour in effect when it was printed. */
  datatype Cell = Cell(c: char, colour: Option<Colour>)

  /** The text with colour changes and gutters deleted. */
  function Strip(ts: seq<Token>): string
  {
    if ts == [] then []
    else
      match ts[0]
      case Char(c) => [c] + Strip(ts[1..])
      case Newline => "\n" + Strip(ts[1..])
      case _ => Strip(ts[1..])
  }

  /** Every character that reaches the terminal, gutter included. */
  function Printed(ts: seq<Token>): string
  {
    if ts == [] then []
    else
      match ts[0]
      case Char(c) => [c] + Printed(ts[1..])
      case GutterChar(g) => [g] + Printed(ts[1..])
      case Newline => "\n" + Printed(ts[1..])
      case _ => Printed(ts[1..])
  }

  /** The text characters, each with the colour that was active when it
      was printed, starting with `cur` active. */
  function Styled(ts: seq<Token>, cur: Option<Colour>): seq<Cell>
  {
    if ts == [] then []
    else
      match ts[0]
      case Char(c) => [Cell(c, cur)] + Styled(ts[1..], cur)
      case Set(k) => Styled(ts[1..], Some(k))
      case Unset => Styled(ts[1..], None)
      case _ => Styled(ts[1..], cur)
  }

  /** The colour active after the tokens, starting with `cur`. */
  function After(ts: seq<Token>, cur: Option<Colour>): Option<Colour>
  {
    if ts == [] then cur
    else
      match ts[0]
      case Set(k) => After(ts[1..], Some(k))
      case Unset => After(ts[1..], None)
      case _ => After(ts[1..], cur)
  }

  /** Plain characters, as fmt.Print of a string. */
  function Chars(s: string): (r: seq<Token>)
  {
    seq(|s|, i requires 0 <= i < |s| => Char(s[i]))
  }

  /** Gutter characters. */
  function GutterChars(s: string): (r: seq<Token>)
  {
    seq(|s|, i requires 0 <= i < |s| => GutterChar(s[i]))
  }

  /** No colour change and no gutter: only text characters and newlines. */
  predicate Uncoloured(ts: seq<Token>)
  {
    forall i :: 0 <= i < |ts| ==> ts[i].Char? || ts[i].Newline?
  }

  lemma StripAppend(a: seq<Token>, b: seq<Token>)
    ensures Strip(a + b) == Strip(a) + Strip(b)
    ensures Printed(a + b) == Printed(a) + Printed(b)
  {
    TextAppend(a, b);
    PrintedAppend(a, b);
  }

  lemma {:induction false} TextAppend(a: seq<Token>, b: seq<Token>)
    ensures Strip(a + b) == Strip(a) + Strip(b)
    decreases |a|
  {
    if a != [] {
      var x, rest := a[0], a[1..];
      var tail := rest + b;
      TextAppend(rest, b);
      assert a == [x] + rest && a + b == [x] + tail;
      TextCons(x, rest);
      TextCons(x, tail);
      Regroup3(Strip([x]), Strip(rest), Strip(b));
    } else {
      assert a + b == b;
    }
  }

  lemma {:induction false} PrintedAppend(a: seq<Token>, b: seq<Token>)
    ensures Printed(a + b) == Printed(a) + Printed(b)
    decreases |a|
  {
    if a != [] {
      var x, rest := a[0], a[1..];
      var tail := rest + b;
      PrintedAppend(rest, b);
      assert a == [x] + rest && a + b == [x] + tail;
      PrintedCons(x, rest);
      PrintedCons(x, tail);
      Regroup3(Printed([x]), Printed(rest), Printed(b));
    } else {
      assert a + b == b;
    }
  }

  /** The first token contributes its own text, then the rest. */
  lemma TextCons(x: Token, s: seq<Token>)
    ensures Strip([x] + s) == Strip([x]) + Strip(s)
  {
    var ts := [x] + s;
    assert ts != [] && ts[0] == x && ts[1..] == s;
    assert [x][1..] == [];
  }

  /** The first token prints its own characters, then the rest. */
  lemma PrintedCons(x: Token, s: seq<Token>)
    ensures Printed([x] + s) == Printed([x]) + Printed(s)
  {
    var ts := [x] + s;
    assert ts != [] && ts[0] == x && ts[1..] == s;
    assert [x][1..] == [];
  }

  /** Colour state threads through a concatenation. */
  lemma {:induction false} StyledAppend(a: seq<Token>, b: seq<Token>, cur: Option<Colour>)
    ensures Styled(a + b, cur) == Styled(a, cur) + Styled(b, After(a, cur))
    ensures After(a + b, cur) == After(b, After(a, cur))
    decreases |a|
  {
    if a != [] {
      assert (a + b)[1..] == a[1..] + b;
      match a[0]
      case Set(k) => StyledAppend(a[1..], b, Some(k));
      case Unset => StyledAppend(a[1..], b, None);
      case _ => StyledAppend(a[1..], b, cur);
    } else {
      assert a + b == b;
    }
  }

  /** Plain characters print as themselves, carry the current colour and
      leave it unchanged. */
  lemma {:induction false} CharsFacts(s: string, cur: Option<Colour>)
    ensures Strip(Chars(s)) == s && Printed(Chars(s)) == s
    ensures Styled(Chars(s), cur) == seq(|s|, i requires 0 <= i < |s| => Cell(s[i], cur))
    ensures After(Chars(s), cur) == cur
    decreases |s|
  {
    if s != [] {
      CharsFacts(s[1..], cur);
      assert Chars(s)[1..] == Chars(s[1..]);
    }
  }

  /** Gutter characters print, but are not text and do not touch the
      colour. */
  lemma {:induction false} GutterCharsFacts(s: string, cur: Option<Colour>)
    ensures Strip(GutterChars(s)) == [] && Printed(GutterChars(s)) == s
    ensures Styled(GutterChars(s), cur) == [] && After(GutterChars(s), cur) == cur
    decreases |s|
  {
    if s != [] {
      GutterCharsFacts(s[1..], cur);
      assert GutterChars(s)[1..] == GutterChars(s[1..]);
    }
  }

  /** Regrouping appended output, for the loops that print in pieces. */
  lemma Regroup3<T>(a: seq<T>, b: seq<T>, c: seq<T>)
    ensures a + b + c == a + (b + c)
  {
  }

  lemma Regroup<T>(a: seq<T>, b: seq<T>, c: seq<T>, d: seq<T>)
    ensures a + b + c + d == a + (b + c + d)
  {
  }
}
