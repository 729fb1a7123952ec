/** The older standalone program (zaje.go): its own copy of the globals,
    of getDefs, colourOutput (without a gutter and with its own colour
    table) and handleData, and of the Action in main. The resolver and the
    per-line loop behave as in the library; the colour table does not. */
module Standalone {
  import opened Wrappers
  import opened Text
  import opened Terminal
  import opened Engine
  import opened Resolver
  import opened Render
  import opened Input
  import opened Pipeline
  import Zaje

  /** The standalone program's group-to-colour switch, cases in source
      order. */
  const StandaloneTable: seq<Case> := [
    Case(["default", ""], None),
    Case(["statement", "green"], Some(Green)),
    Case(["identifier", "blue"], Some(HiBlue)),
    Case(["preproc"], Some(HiRed)),
    Case(["special", "red"], Some(Red)),
    Case(["constant.string", "constant", "constant.number", "symbol.operator", "symbol.brackets", "cyan"], Some(Cyan)),
    Case(["constant.specialChar", "identifier.var", "magenta"], Some(HiMagenta)),
    Case(["type", "yellow"], Some(Yellow)),
    Case(["comment", "high.green"], Some(HiGreen))
  ]

  /** Where the two tables part: strings are cyan here, magenta in the
      library. */
  lemma StringsCyan()
    ensures Lookup(StandaloneTable, "constant.string") == Some(Cyan) && Lookup(Zaje.LibTable, "constant.string") == Some(HiMagenta)
  {
  }

  /** Operators are cyan here, yellow in the library. */
  lemma OperatorsCyan()
    ensures Lookup(StandaloneTable, "symbol.operator") == Some(Cyan) && Lookup(Zaje.LibTable, "symbol.operator") == Some(Yellow)
  {
  }

  /** Variables are magenta here, cyan in the library. */
  lemma VariablesMagenta()
    ensures Lookup(StandaloneTable, "identifier.var") == Some(HiMagenta) && Lookup(Zaje.LibTable, "identifier.var") == Some(Cyan)
  {
  }

  /** "type.keyword" and "constant.bool", which the library colours, are
      not listed here and fall to the default branch, which unsets. */
  lemma TablesUnlisted(tag: string)
    requires tag == "type.keyword" || tag == "constant.bool"
    ensures Lookup(StandaloneTable, tag) == None
    ensures Lookup(Zaje.LibTable, tag) == if tag == "type.keyword" then Some(Red) else Some(Cyan)
  {
    LookupUnlisted(StandaloneTable, tag);
  }

  const NoInputMessage: string := "No input file provided. `zaje` needs a file or data from STDIN."

  /** The Action in main: a named argument is always read as a file. */
  function ActionSpec(env: Env, cfg: Config, st: ResolverState, stdin: Stdin, args: seq<string>): Outcome
  {
    match Dispatch(stdin.isPipe, args)
    case NoInput => Outcome(Run(st, [], true, []), Err(NoInputMessage))
    case Named(arg) => Single(HandleStep(env, cfg, st, arg, FileData(env, arg)))
    case Progressive => ProgressiveOutcome(env, cfg, st, stdin)
    case Batch => BatchOutcome(env, cfg, st, stdin)
  }

  /** The program's globals (syn_dir, def, highlight_lexer) and the
      terminal; `calls` records every handleData call. */
  class Program {
    var synDir: string
    var def: Option<SyntaxDef>
    const highlightLexer: string
    var out: seq<Token>
    ghost var calls: seq<Call>

    constructor(synDir: string, highlightLexer: string)
      ensures this.synDir == synDir && def == None && this.highlightLexer == highlightLexer
      ensures out == [] && calls == []
    {
      this.synDir := synDir;
      def := None;
      this.highlightLexer := highlightLexer;
      out := [];
      calls := [];
    }

    function State(): ResolverState
      reads this
    {
      ResolverState(synDir, def)
    }

    /** No line numbers in this program. */
    function Cfg(): Config
    {
      Config(highlightLexer, StandaloneTable, false)
    }

    /** getDefs(filename, data), the same steps as the library's. */
    method GetDefs(env: Env, filename: string, data: string) returns (r: Resolution)
      modifies this`synDir, this`def
      ensures Resolved(State(), r) == Resolve(env, highlightLexer, old(State()), filename, data)
    {
      if synDir == "" {
        if env.isDir(env.home + "/.config/zaje/syntax_files") {
          synDir := env.home + "/.config/zaje/syntax_files";
        } else if env.isDir("/etc/zaje/syntax_files") {
          synDir := "/etc/zaje/syntax_files";
        }
      }
      var loaded := env.loadDefs(synDir);
      if loaded.None? {
        return Fatal;
      }
      if def.None? {
        def := env.detect(loaded.value, filename, FirstLine(data));
      }
      if highlightLexer != "" {
        var file := env.readFile(synDir + "/" + highlightLexer + ".yaml");
        if file.Some? {
          def := env.parseDef(file.value);
        }
      }
      if def.None? {
        return NoDef;
      }
      return Matches(env.highlight(def.value, data));
    }

    /** The inner loop of colourOutput, with this program's table. */
    method ColourLine(lm: LineMatch, l: string)
      modifies this`out
      ensures out == old(out) + Body(StandaloneTable, lm, l)
    {
      var colN := 0;
      while colN < |l|
        invariant 0 <= colN <= |l|
        invariant out == old(out) + Body(StandaloneTable, lm, l[..colN])
      {
        BodyStep(StandaloneTable, lm, l, colN);
        if colN in lm {
          out := out + [PaintToken(Lookup(StandaloneTable, lm[colN]))];
        }
        out := out + [Char(l[colN])];
        colN := colN + 1;
      }
      assert l[..colN] == l;
    }

    /** colourOutput(matches, data): per line, each character preceded by
        the colour its column's entry selects, then a reset and a newline;
        no gutter. */
    method ColourOutput(matches: seq<LineMatch>, data: string)
      requires Covered(matches, Split(data))
      modifies this`out
      ensures out == old(out) + ColourOutputSpec(StandaloneTable, false, matches, data)
    {
      var lines := Split(data);
      var lineN := 0;
      while lineN < |lines|
        invariant 0 <= lineN <= |lines|
        invariant out == old(out) + RenderLines(StandaloneTable, false, GutterWidth(data), matches, lines[..lineN])
      {
        var l := lines[lineN];
        RenderLinesStep(StandaloneTable, false, GutterWidth(data), matches, lines, lineN);
        ghost var before := out;
        var lm := if l == [] then map[] else matches[lineN];
        ColourLine(lm, l);
        out := out + [Unset, Newline];
        ghost var body := Body(StandaloneTable, MatchAt(matches, lineN), l);
        assert body == Body(StandaloneTable, lm, l);
        ghost var line := LineOut(StandaloneTable, false, GutterWidth(data), MatchAt(matches, lineN), lineN, l);
        assert line == body + [Unset, Newline];
        Regroup3(before, body, [Unset, Newline]);
        assert out == before + line;
        Regroup3(old(out), RenderLines(StandaloneTable, false, GutterWidth(data), matches, lines[..lineN]), line);
        lineN := lineN + 1;
      }
      assert lines[..lineN] == lines;
    }

    /** handleData(filename, data). */
    method HandleData(env: Env, filename: string, data: string) returns (alive: bool)
      requires EngineCovers(env)
      modifies this`synDir, this`def, this`out, this`calls
      ensures var h := HandleStep(env, Cfg(), old(State()), filename, data);
        State() == h.state && out == old(out) + h.out && calls == old(calls) + h.calls && alive == h.alive
    {
      calls := calls + [Call(filename, data)];
      var r := GetDefs(env, filename, data);
      match r
      case Fatal =>
        alive := false;
      case NoDef =>
        out := out + Chars(data) + [Newline];
        alive := true;
      case Matches(m) =>
        ColourOutput(m, data);
        alive := true;
    }

    /** app.Action in main. */
    method Action(env: Env, stdin: Stdin, args: seq<string>) returns (result: ActionResult)
      requires EngineCovers(env)
      modifies this`synDir, this`def, this`out, this`calls
      ensures var o := ActionSpec(env, Cfg(), old(State()), stdin, args);
        result == o.result && State() == o.run.state && out == old(out) + o.run.out && calls == old(calls) + o.run.calls
    {
      var filename := "";
      if !stdin.isPipe {
        if |args| < 1 {
          return Err(NoInputMessage);
        }
        filename := args[0];
        var data := FileData(env, filename);
        var alive := HandleData(env, filename, data);
        return if alive then Ok else Exit;
      }
      if FirstArg(args) == "-" {
        ghost var st := State();
        ghost var out0 := out;
        ghost var calls0 := calls;
        var i := 0;
        while i < |stdin.scanned|
          invariant 0 <= i <= |stdin.scanned|
          invariant var r := RunLines(env, Cfg(), st, filename, stdin.scanned[..i]);
            r.alive && State() == r.state && out == out0 + r.out && calls == calls0 + r.calls
        {
          ghost var prev := RunLines(env, Cfg(), st, filename, stdin.scanned[..i]);
          ghost var h := HandleStep(env, Cfg(), prev.state, filename, stdin.scanned[i]);
          RunLinesStep(env, Cfg(), st, filename, stdin.scanned, i);
          var alive := HandleData(env, filename, stdin.scanned[i]);
          Regroup3(out0, prev.out, h.out);
          Regroup3(calls0, prev.calls, h.calls);
          if !alive {
            RunLinesStopped(env, Cfg(), st, filename, stdin.scanned, i + 1);
            return Exit;
          }
          i := i + 1;
        }
        assert stdin.scanned[..i] == stdin.scanned;
        if stdin.scanError.Some? {
          return Err(stdin.scanError.value);
        }
        return Ok;
      }
      if stdin.all.None? {
        return Exit;
      }
      var alive := HandleData(env, filename, stdin.all.value);
      return if alive then Ok else Exit;
    }
  }

  // Properties of this program.

  /** Deleting colours gives back the data and one newline, and nothing
      but text characters and newlines is printed: there is no gutter. */
  lemma ColourOutputNoGutter(matches: seq<LineMatch>, data: string)
    ensures Strip(ColourOutputSpec(StandaloneTable, false, matches, data)) == data + "\n"
    ensures Printed(ColourOutputSpec(StandaloneTable, false, matches, data)) == data + "\n"
    ensures After(ColourOutputSpec(StandaloneTable, false, matches, data), None) == None
  {
    ColourOutputText(StandaloneTable, false, matches, data);
    ColourOutputColours(StandaloneTable, false, matches, data);
  }

  /** Without a pipe and without an argument the Action returns this
      program's error and prints nothing. */
  lemma NoInputRejected(env: Env, cfg: Config, st: ResolverState, stdin: Stdin, args: seq<string>)
    requires !stdin.isPipe && |args| == 0
    ensures var o := ActionSpec(env, cfg, st, stdin, args);
      o.result == Err(NoInputMessage) && o.run.out == [] && o.run.calls == [] && o.run.state == st
  {
  }

  /** Without a pipe the argument is read as a file (no URL case here)
      and handleData is called once, with the argument as the hint. */
  lemma NamedCalledOnce(env: Env, cfg: Config, st: ResolverState, stdin: Stdin, args: seq<string>)
    requires !stdin.isPipe && |args| >= 1
    ensures var o := ActionSpec(env, cfg, st, stdin, args);
      o.run.calls == [Call(args[0], FileData(env, args[0]))] && (o.result == Ok <==> o.run.alive)
    ensures var o := ActionSpec(env, cfg, st, stdin, args);
      o.run.alive ==> Strip(o.run.out) == FileData(env, args[0]) + "\n"
  {
    HandleStepText(env, cfg, st, args[0], FileData(env, args[0]));
  }

  /** Piped with "-": handleData on each scanned line in order, with
      filename "", all of them unless the process exits; a scanner error
      is then the Action's error. */
  lemma ProgressiveLineByLine(env: Env, cfg: Config, st: ResolverState, stdin: Stdin, args: seq<string>)
    requires stdin.isPipe && |args| >= 1 && args[0] == "-"
    ensures var o := ActionSpec(env, cfg, st, stdin, args);
      o.run.calls <= CallsFor("", stdin.scanned)
    ensures var o := ActionSpec(env, cfg, st, stdin, args);
      o.run.alive ==> o.run.calls == CallsFor("", stdin.scanned) && Strip(o.run.out) == Terminated(stdin.scanned)
    ensures var o := ActionSpec(env, cfg, st, stdin, args);
      o.result == if !o.run.alive then Exit else if stdin.scanError.Some? then Err(stdin.scanError.value) else Ok
  {
    RunLinesCalls(env, cfg, st, "", stdin.scanned);
  }

  /** Piped without "-": handleData once on all of stdin, filename "". */
  lemma BatchCalledOnce(env: Env, cfg: Config, st: ResolverState, stdin: Stdin, args: seq<string>)
    requires stdin.isPipe && (|args| == 0 || args[0] != "-")
    ensures var o := ActionSpec(env, cfg, st, stdin, args);
      stdin.all.None? ==> o.result == Exit && o.run.calls == [] && o.run.out == []
    ensures var o := ActionSpec(env, cfg, st, stdin, args);
      stdin.all.Some? ==>
        o.run.calls == [Call("", stdin.all.value)] &&
        (o.run.alive ==> o.result == Ok && Strip(o.run.out) == stdin.all.value + "\n")
  {
    if stdin.all.Some? {
      HandleStepText(env, cfg, st, "", stdin.all.value);
    }
  }
}
