/** The library package (common_functions.go): the process-wide settings
    and detection cache as the fields of a `Session`, with getDefs,
    colourOutput and HandleData as its methods, each proved against the
    shared specification functions. */
module Zaje {
  import opened Wrappers
  import opened Text
  import opened Terminal
  import opened Engine
  import opened Resolver
  import opened Render
  import opened Pipeline

  /** The library's group-to-colour switch, cases in source order; the
      first case listing a tag decides its colour, and a tag no case lists
      falls to the default branch, which unsets. */
  const LibTable: seq<Case> := [
    Case(["default", ""], None),
    Case(["statement", "green"], Some(Green)),
    Case(["identifier", "blue"], Some(HiBlue)),
    Case(["preproc"], Some(HiRed)),
    Case(["special", "type.keyword", "red"], Some(Red)),
    Case(["constant", "constant.number", "constant.bool", "symbol.brackets", "identifier.var", "cyan"], Some(Cyan)),
    Case(["constant.specialChar", "constant.string.url", "constant.string", "magenta"], Some(HiMagenta)),
    Case(["type", "symbol.operator", "symbol.tag.extended", "yellow"], Some(Yellow)),
    Case(["comment", "high.green"], Some(HiGreen))
  ]

  /** Many-to-one: "type.keyword" falls through to the arm of "special"
      and is red. */
  lemma KeywordLikeSpecial()
    ensures Lookup(LibTable, "type.keyword") == Lookup(LibTable, "special") == Some(Red)
  {
  }

  /** "default", "" and every tag no case lists all unset the colour. */
  lemma LibTableUnsets(tag: string)
    requires tag == "default" || tag == "" || forall j :: 0 <= j < |LibTable| ==> tag !in LibTable[j].tags
    ensures Lookup(LibTable, tag) == None
  {
    if tag == "default" || tag == "" {
      LookupFirstMatch(LibTable, tag, 0);
    } else {
      LookupUnlisted(LibTable, tag);
    }
  }

  /** The package-level state of the library: the syntax directory and the
      cached definition, which getDefs updates, the settings the CLI flags
      fill in, and the terminal. `calls` records every HandleData call. */
  class Session {
    var synDir: string
    var def: Option<SyntaxDef>
    const highlightLexer: string
    const addLineNumbers: bool
    const removeLineNumbers: bool
    var out: seq<Token>
    ghost var calls: seq<Call>

    /** Program start: the flags are set, nothing is cached or printed. */
    constructor(synDir: string, highlightLexer: string, addLineNumbers: bool, removeLineNumbers: bool)
      ensures this.synDir == synDir && def == None
      ensures this.highlightLexer == highlightLexer && this.addLineNumbers == addLineNumbers
      ensures this.removeLineNumbers == removeLineNumbers
      ensures out == [] && calls == []
    {
      this.synDir := synDir;
      def := None;
      this.highlightLexer := highlightLexer;
      this.addLineNumbers := addLineNumbers;
      this.removeLineNumbers := removeLineNumbers;
      out := [];
      calls := [];
    }

    /** What getDefs keeps between calls. */
    function State(): ResolverState
      reads this
    {
      ResolverState(synDir, def)
    }

    /** What HandleData reads of the settings. */
    function Cfg(): Config
    {
      Config(highlightLexer, LibTable, addLineNumbers)
    }

    /** getDefs(filename, data): settles the directory, loads the
        definitions, detects while nothing is cached, applies the explicit
        lexer, and classifies the data with the definition, if any. */
    method GetDefs(env: Env, filename: string, data: string) returns (r: Resolution)
      modifies this`synDir, this`def
      ensures Resolved(State(), r) == Resolve(env, highlightLexer, old(State()), filename, data)
    {
      if synDir == "" {
        if env.isDir(UserSynDir(env.home)) {
          synDir := UserSynDir(env.home);
        } else if env.isDir(GlobalSynDir) {
          synDir := GlobalSynDir;
        }
      }
      var loaded := env.loadDefs(synDir);
      if loaded.None? {
        return Fatal;
      }
      if def.None? {
        def := env.detect(loaded.value, filename, FirstLine(data));
      }
      if highlightLexer != "" {
        var file := env.readFile(LexerPath(synDir, highlightLexer));
        if file.Some? {
          def := env.parseDef(file.value);
        }
      }
      if def.None? {
        return NoDef;
      }
      return Matches(env.highlight(def.value, data));
    }

    /** The inner loop of colourOutput: each character of one line,
        preceded by the colour its column's entry selects, if it has one. */
    method ColourLine(lm: LineMatch, l: string)
      modifies this`out
      ensures out == old(out) + Body(LibTable, lm, l)
    {
      var colN := 0;
      while colN < |l|
        invariant 0 <= colN <= |l|
        invariant out == old(out) + Body(LibTable, lm, l[..colN])
      {
        BodyStep(LibTable, lm, l, colN);
        if colN in lm {
          out := out + [PaintToken(Lookup(LibTable, lm[colN]))];
        }
        out := out + [Char(l[colN])];
        colN := colN + 1;
      }
      assert l[..colN] == l;
    }

    /** colourOutput(matches, data): per line, the gutter when numbering,
        then each character preceded by the colour its column's entry
        selects, then a reset and a newline. A non-empty line without an
        entry in `matches` is an index panic in the source, hence the
        requires. */
    method ColourOutput(matches: seq<LineMatch>, data: string)
      requires Covered(matches, Split(data))
      modifies this`out
      ensures out == old(out) + ColourOutputSpec(LibTable, addLineNumbers, matches, data)
    {
      var lines := Split(data);
      var w := |Digits(|lines|)|;
      var lineN := 0;
      while lineN < |lines|
        invariant 0 <= lineN <= |lines| && |Digits(lineN)| <= w
        invariant out == old(out) + RenderLines(LibTable, addLineNumbers, w, matches, lines[..lineN])
      {
        var l := lines[lineN];
        DigitsMonotone(lineN + 1, |lines|);
        RenderLinesStep(LibTable, addLineNumbers, w, matches, lines, lineN);
        ghost var before := out;
        ghost var gutter := if addLineNumbers then Gutter(w, lineN + 1) else [];
        if addLineNumbers {
          // padding, color.Set(FgYellow), the number and a space, color.Unset()
          out := out + (GutterChars(Spaces(w - |Digits(lineN + 1)|)) + [Set(Yellow)] + GutterChars(Digits(lineN + 1) + " ") + [Unset]);
        }
        assert out == before + gutter;
        var lm := if l == [] then map[] else matches[lineN];
        ColourLine(lm, l);
        out := out + [Unset, Newline];
        ghost var body := Body(LibTable, MatchAt(matches, lineN), l);
        assert body == Body(LibTable, lm, l);
        ghost var line := LineOut(LibTable, addLineNumbers, w, MatchAt(matches, lineN), lineN, l);
        assert line == gutter + body + [Unset, Newline];
        Regroup(before, gutter, body, [Unset, Newline]);
        assert out == before + line;
        Regroup3(old(out), RenderLines(LibTable, addLineNumbers, w, matches, lines[..lineN]), line);
        assert out == old(out) + (RenderLines(LibTable, addLineNumbers, w, matches, lines[..lineN]) + line);
        lineN := lineN + 1;
      }
      assert lines[..lineN] == lines;
    }

    /** HandleData(filename, data): the definition's classification is
        rendered; without a definition the data is printed as it is; a
        log.Fatal in getDefs ends the process (`alive` false). */
    method HandleData(env: Env, filename: string, data: string) returns (alive: bool)
      requires EngineCovers(env)
      modifies this`synDir, this`def, this`out, this`calls
      ensures var h := HandleStep(env, Cfg(), old(State()), filename, data);
        State() == h.state && out == old(out) + h.out && calls == old(calls) + h.calls && alive == h.alive
    {
      calls := calls + [Call(filename, data)];
      var r := GetDefs(env, filename, data);
      match r
      case Fatal =>
        alive := false;
      case NoDef =>
        out := out + Chars(data) + [Newline];
        alive := true;
      case Matches(m) =>
        ColourOutput(m, data);
        alive := true;
    }
  }
}
