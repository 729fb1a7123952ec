module Wrappers {
  datatype Option<+T> = None | Some(value: T)
}

/** Strings as the Go code handles them: splitting on "\n", the decimal
    form of a line number, padding. Text is a sequence of characters
    (Go runes). */
module Text {

  /** The pieces of `s` between "\n" separators, as Go's
      strings.Split(s, "\n") returns them. Defined from the last character
      backwards so that a left-to-right scan extends it one step at a time. */
  function Split(s: string): (r: seq<string>)
    ensures |r| >= 1
    decreases |s|
  {
    if s == [] then [""]
    else
      var init := Split(s[..|s| - 1]);
      var c := s[|s| - 1];
      if c == '\n' then init + [""]
      else init[..|init| - 1] + [init[|init| - 1] + [c]]
  }

  /** Every line followed by "\n": what printing each line with a trailing
      newline produces. */
  function Terminated(lines: seq<string>): string
  {
    if lines == [] then [] else Terminated(lines[..|lines| - 1]) + lines[|lines| - 1] + "\n"
  }

  /** The lines glued back with "\n" between them (Go's strings.Join). */
  function Join(lines: seq<string>): string
    requires |lines| >= 1
  {
    if |lines| == 1 then lines[0] else Join(lines[..|lines| - 1]) + "\n" + lines[|lines| - 1]
  }

  /** Number of "\n" characters in `s`. */
  function NewlineCount(s: string): nat
  {
    if s == [] then 0 else NewlineCount(s[..|s| - 1]) + (if s[|s| - 1] == '\n' then 1 else 0)
  }

  predicate NoNewline(s: string)
  {
    '\n' !in s
  }

  /** The first line of `s`, as bytes.Split(data, "\n")[0]. */
  function FirstLine(s: string): string
  {
    Split(s)[0]
  }

  /** Splitting and printing every piece with a newline gives back the text
      plus one final newline. */
  lemma {:induction false} SplitTerminated(s: string)
    ensures Terminated(Split(s)) == s + "\n"
    decreases |s|
  {
    if s != [] {
      var s' := s[..|s| - 1];
      var c := s[|s| - 1];
      var init := Split(s');
      SplitTerminated(s');
      assert s == s' + [c];
      if c == '\n' {
        assert Split(s) == init + [""];
        assert (init + [""])[..|init|] == init;
      } else {
        var k := |init| - 1;
        var r := init[..k] + [init[k] + [c]];
        assert Split(s) == r;
        assert r[..k] == init[..k];
        assert init[..|init| - 1] == init[..k];
        var t := Terminated(init[..k]) + init[k];
        assert Terminated(init) == t + "\n";
        assert t == (t + "\n")[..|t|] == (s' + "\n")[..|s'|] == s';
        assert Terminated(r) == t + [c] + "\n";
      }
    }
  }

  /** No piece of a split contains the separator. */
  lemma {:induction false} SplitPiecesHaveNoNewline(s: string)
    ensures forall i :: 0 <= i < |Split(s)| ==> NoNewline(Split(s)[i])
    decreases |s|
  {
    if s != [] {
      SplitPiecesHaveNoNewline(s[..|s| - 1]);
    }
  }

  /** n separators give n + 1 pieces, a trailing "\n" giving a final empty
      piece. */
  lemma {:induction false} SplitCount(s: string)
    ensures |Split(s)| == NewlineCount(s) + 1
    decreases |s|
  {
    if s != [] {
      SplitCount(s[..|s| - 1]);
    }
  }

  lemma {:induction false} TerminatedJoin(lines: seq<string>)
    requires |lines| >= 1
    ensures Terminated(lines) == Join(lines) + "\n"
    decreases |lines|
  {
    if |lines| > 1 {
      var init := lines[..|lines| - 1];
      TerminatedJoin(init);
      assert init[..|init| - 1] == lines[..|lines| - 2];
    } else {
      assert lines[..0] == [];
    }
  }

  /** Join undoes Split. */
  lemma JoinSplit(s: string)
    ensures Join(Split(s)) == s
  {
    SplitTerminated(s);
    TerminatedJoin(Split(s));
  }

  /** Appending text without a separator extends the last piece. */
  lemma {:induction false} SplitAppendPlain(a: string, b: string)
    requires NoNewline(b)
    ensures Split(a + b) == Split(a)[..|Split(a)| - 1] + [Split(a)[|Split(a)| - 1] + b]
    decreases |b|
  {
    var pa := Split(a);
    var k := |pa| - 1;
    if b == [] {
      assert a + b == a;
      assert pa[k] + b == pa[k];
      assert pa == pa[..k] + [pa[k]];
    } else {
      var b' := b[..|b| - 1];
      var c := b[|b| - 1];
      SplitAppendPlain(a, b');
      assert (a + b)[..|a + b| - 1] == a + b';
      assert c != '\n';
      assert (a + b)[|a + b| - 1] == c;
      var init := Split(a + b');
      assert Split(a + b) == init[..|init| - 1] + [init[|init| - 1] + [c]];
      assert init == pa[..k] + [pa[k] + b'];
      assert init[..|init| - 1] == pa[..k];
      assert pa[k] + b' + [c] == pa[k] + b;
    }
  }

  /** A newline at the end starts a new, empty piece. */
  lemma SplitNewline(s: string)
    ensures Split(s + "\n") == Split(s) + [""]
  {
    assert (s + "\n")[..|s|] == s;
  }

  /** Text without a newline is a single piece. */
  lemma SplitPlain(s: string)
    requires NoNewline(s)
    ensures Split(s) == [s]
  {
    SplitAppendPlain([], s);
    assert [] + s == s;
    assert Split([]) == [""];
  }

  /** A text that starts with a whole line splits into that line and the
      pieces of the rest. */
  lemma SplitCons(l: string, r: string)
    requires NoNewline(l)
    ensures Split(l + "\n" + r) == [l] + Split(r)
  {
    var ps := Split(r);
    var xs := [l] + ps;
    JoinSplit(r);
    JoinCons(l, ps);
    SplitPiecesHaveNoNewline(r);
    assert forall i :: 1 <= i < |xs| ==> xs[i] == ps[i - 1];
    SplitJoin(xs);
  }

  /** A slice is its first character followed by the rest of it. */
  lemma SliceCons(s: string, i: nat, j: nat)
    requires i < j <= |s|
    ensures s[i..j] == [s[i]] + s[i + 1..j]
  {
  }

  /** A slice has no newline exactly when none of its positions holds one. */
  lemma NoNewlineSlice(s: string, i: nat, j: nat)
    requires i <= j <= |s|
    ensures NoNewline(s[i..j]) <==> forall k :: i <= k < j ==> s[k] != '\n'
  {
    if !NoNewline(s[i..j]) {
      var x :| 0 <= x < j - i && s[i..j][x] == '\n';
      assert s[i + x] == '\n';
    }
  }

  /** Joining a first line to the rest puts one separator between them. */
  lemma {:induction false} JoinCons(x: string, ys: seq<string>)
    requires |ys| >= 1
    ensures Join([x] + ys) == x + "\n" + Join(ys)
    decreases |ys|
  {
    var xs := [x] + ys;
    var n := |ys|;
    if n == 1 {
      assert xs[..1] == [x];
    } else {
      JoinCons(x, ys[..n - 1]);
      assert xs[..n] == [x] + ys[..n - 1];
    }
  }

  /** Split undoes Join when no piece contains the separator. */
  lemma {:induction false} SplitJoin(lines: seq<string>)
    requires |lines| >= 1
    requires forall i :: 0 <= i < |lines| ==> NoNewline(lines[i])
    ensures Split(Join(lines)) == lines
    decreases |lines|
  {
    var n := |lines|;
    var last := lines[n - 1];
    assert NoNewline(last);
    if n == 1 {
      SplitPlain(last);
      assert lines == [last];
    } else {
      var init := lines[..n - 1];
      assert forall i :: 0 <= i < |init| ==> init[i] == lines[i];
      SplitJoin(init);
      var j := Join(init) + "\n";
      SplitNewline(Join(init));
      assert Join(lines) == j + last;
      SplitAppendPlain(j, last);
      var pj := Split(j);
      assert pj == init + [""] && |pj| - 1 == n - 1;
      assert pj[..n - 1] == init && pj[n - 1] + last == last;
      assert Split(j + last) == init + [last];
      assert lines == init + [last];
    }
  }

  /** The first line is the longest newline-free prefix. */
  lemma {:induction false} FirstLineIsPrefix(s: string)
    ensures FirstLine(s) <= s && NoNewline(FirstLine(s))
    ensures |FirstLine(s)| < |s| ==> s[|FirstLine(s)|] == '\n'
    ensures |Split(s)| == 1 ==> FirstLine(s) == s
    ensures |Split(s)| > 1 ==> |FirstLine(s)| < |s|
    decreases |s|
  {
    SplitPiecesHaveNoNewline(s);
    if s != [] {
      var s' := s[..|s| - 1];
      var c := s[|s| - 1];
      assert s == s' + [c];
      FirstLineIsPrefix(s');
      var init := Split(s');
      if c == '\n' {
        assert Split(s) == init + [""];
        assert FirstLine(s) == init[0];
      } else if |init| == 1 {
        assert Split(s) == [init[0] + [c]];
        assert FirstLine(s) == s;
      } else {
        assert Split(s) == init[..|init| - 1] + [init[|init| - 1] + [c]];
        assert FirstLine(s) == init[0];
      }
    }
  }

  // Decimal numbers, as fmt.Sprint prints a non-negative int.

  function DigitChar(d: nat): char
    requires d < 10
  {
    ('0' as int + d) as char
  }

  predicate IsDigit(c: char)
  {
    '0' <= c <= '9'
  }

  function Digits(n: nat): (r: string)
    ensures |r| >= 1
  {
    if n < 10 then [DigitChar(n)] else Digits(n / 10) + [DigitChar(n % 10)]
  }

  /** The number a string of decimal digits denotes. */
  function Value(s: string): int
  {
    if s == [] then 0 else Value(s[..|s| - 1]) * 10 + (s[|s| - 1] as int - '0' as int)
  }

  /** Printing a number in decimal and reading it back gives the number;
      every character printed is a digit. */
  lemma {:induction false} DigitsValue(n: nat)
    ensures Value(Digits(n)) == n
    ensures forall i :: 0 <= i < |Digits(n)| ==> IsDigit(Digits(n)[i])
  {
    if n >= 10 {
      DigitsValue(n / 10);
      var d := Digits(n);
      assert d[..|d| - 1] == Digits(n / 10);
    }
  }

  /** A larger number never has fewer digits. */
  lemma {:induction false} DigitsMonotone(a: nat, b: nat)
    requires a <= b
    ensures |Digits(a)| <= |Digits(b)|
  {
    if a >= 10 {
      DigitsMonotone(a / 10, b / 10);
    }
  }

  function Spaces(n: nat): (r: string)
  {
    seq(n, _ => ' ')
  }
}
