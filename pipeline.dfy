/** One HandleData call (resolve, then render or echo) and a sequence of
    them, as the progressive loop makes them: what is printed, how the
    cached definition evolves, and which calls are made. */
module Pipeline {
  import opened Wrappers
  import opened Text
  import opened Terminal
  import opened Engine
  import opened Resolver
  import opened Render
  import opened Input

  /** The settings HandleData reads: the explicit lexer, the colour table
      of the program, and whether to number lines. */
  datatype Config = Config(lexer: string, table: seq<Case>, numbered: bool)

  /** A HandleData call, by its arguments. */
  datatype Call = Call(filename: string, data: string)

  /** The resolver state afterwards, what was printed, whether the process
      is still running (log.Fatal and panics end it), and the HandleData
      calls made. */
  datatype Run = Run(state: ResolverState, out: seq<Token>, alive: bool, calls: seq<Call>)

  /** fmt.Println(string(data)): the data as it is and one newline. */
  function Echo(data: string): seq<Token>
  {
    Chars(data) + [Newline]
  }

  /** HandleData(filename, data). */
  function HandleStep(env: Env, cfg: Config, st: ResolverState, filename: string, data: string): Run
  {
    var r := Resolve(env, cfg.lexer, st, filename, data);
    var call := [Call(filename, data)];
    match r.outcome
    case Fatal => Run(r.state, [], false, call)
    case NoDef => Run(r.state, Echo(data), true, call)
    case Matches(m) => Run(r.state, ColourOutputSpec(cfg.table, cfg.numbered, m, data), true, call)
  }

  /** `a` followed by `b`, `b` starting from the state `a` left. */
  function Then(a: Run, b: Run): Run
  {
    Run(b.state, a.out + b.out, b.alive, a.calls + b.calls)
  }

  /** Calls made one after the other by `step`, each from the state the
      previous one left, until the lines run out or a call ends the
      process. */
  function Steps(step: (ResolverState, string) -> Run, st: ResolverState, lines: seq<string>): Run
    decreases |lines|
  {
    if lines == [] then Run(st, [], true, [])
    else
      var prev := Steps(step, st, lines[..|lines| - 1]);
      if !prev.alive then prev
      else Then(prev, step(prev.state, lines[|lines| - 1]))
  }

  /** HandleData with a fixed filename hint, as a step. */
  function Handler(env: Env, cfg: Config, filename: string): (ResolverState, string) -> Run
  {
    (s: ResolverState, data: string) => HandleStep(env, cfg, s, filename, data)
  }

  /** The scanner loop: HandleData on each line in order, until the lines
      run out or the process exits. */
  function RunLines(env: Env, cfg: Config, st: ResolverState, filename: string, lines: seq<string>): Run
  {
    Steps(Handler(env, cfg, filename), st, lines)
  }

  /** One HandleData call per line, in order. */
  function CallsFor(filename: string, lines: seq<string>): seq<Call>
  {
    seq(|lines|, i requires 0 <= i < |lines| => Call(filename, lines[i]))
  }

  /** Each line printed by `render` on its own, in order. */
  function Each(render: string -> seq<Token>, lines: seq<string>): seq<Token>
    decreases |lines|
  {
    if lines == [] then [] else Each(render, lines[..|lines| - 1]) + render(lines[|lines| - 1])
  }

  /** A line rendered with definition d. */
  function Renderer(env: Env, cfg: Config, d: SyntaxDef): string -> seq<Token>
  {
    (l: string) => ColourOutputSpec(cfg.table, cfg.numbered, env.highlight(d, l), l)
  }

  // The outcome of a CLI action.

  datatype Outcome = Outcome(run: Run, result: ActionResult)

  /** After a single HandleData call the action returns nil, unless the
      process already exited inside it. */
  function Single(r: Run): Outcome
  {
    Outcome(r, if r.alive then Ok else Exit)
  }

  /** Nothing printed, no call made; the process exits (log.Fatal or
      panic before HandleData). */
  function Crash(st: ResolverState): Outcome
  {
    Outcome(Run(st, [], false, []), Exit)
  }

  /** Piped with "-": one call per scanned line with filename "", then the
      scanner's error, if any, is the action's error. */
  function ProgressiveOutcome(env: Env, cfg: Config, st: ResolverState, stdin: Stdin): Outcome
  {
    var r := RunLines(env, cfg, st, "", stdin.scanned);
    Outcome(r, if !r.alive then Exit else if stdin.scanError.Some? then Err(stdin.scanError.value) else Ok)
  }

  /** Piped without "-": all of stdin in one call with filename ""; a read
      error panics. */
  function BatchOutcome(env: Env, cfg: Config, st: ResolverState, stdin: Stdin): Outcome
  {
    match stdin.all
    case None => Crash(st)
    case Some(all) => Single(HandleStep(env, cfg, st, "", all))
  }

  /** The data for a named argument: an http(s) URL is fetched (None when
      http.Get fails, which is a log.Fatal), anything else is read as a
      file, a read error giving empty data. */
  function Fetch(env: Env, arg: string): Option<string>
  {
    if IsUrl(arg) then env.httpGet(arg) else Some(FileData(env, arg))
  }

  // Properties of one call.

  lemma EchoFacts(data: string)
    ensures Uncoloured(Echo(data))
    ensures Printed(Echo(data)) == data + "\n" && Strip(Echo(data)) == data + "\n"
  {
    CharsFacts(data, None);
    var nl: seq<Token> := [Newline];
    assert Printed(nl) == "\n" && Strip(nl) == "\n";
    StripAppend(Chars(data), nl);
  }

  /** With no definition the data is printed as it is, then one newline:
      no colour, no gutter. Whenever the process survives the call, the
      text printed (colour and gutter aside) is the data and one newline. */
  lemma HandleStepText(env: Env, cfg: Config, st: ResolverState, filename: string, data: string)
    ensures var r := HandleStep(env, cfg, st, filename, data);
      Resolve(env, cfg.lexer, st, filename, data).outcome.NoDef? ==>
        r.out == Echo(data) && Uncoloured(r.out) && Printed(r.out) == data + "\n"
    ensures var r := HandleStep(env, cfg, st, filename, data);
      r.alive ==> Strip(r.out) == data + "\n"
    ensures HandleStep(env, cfg, st, filename, data).calls == [Call(filename, data)]
  {
    EchoFacts(data);
    var res := Resolve(env, cfg.lexer, st, filename, data);
    if res.outcome.Matches? {
      ColourOutputText(cfg.table, cfg.numbered, res.outcome.lines, data);
    }
  }

  // Properties of the progressive loop.

  /** The calls made are the first lines, in order, each with the same
      filename; all of them when the process survives. While it survives,
      the text printed (colour and gutter aside) is every line followed by a
      newline. */
  lemma {:induction false} StepsCalls(step: (ResolverState, string) -> Run, filename: string, st: ResolverState, lines: seq<string>)
    requires forall s, l :: step(s, l).calls == [Call(filename, l)]
    requires forall s, l :: step(s, l).alive ==> Strip(step(s, l).out) == l + "\n"
    ensures var r := Steps(step, st, lines);
      r.calls <= CallsFor(filename, lines) && (r.alive ==> r.calls == CallsFor(filename, lines))
    ensures var r := Steps(step, st, lines);
      r.alive ==> Strip(r.out) == Terminated(lines)
    decreases |lines|
  {
    if lines != [] {
      var n := |lines| - 1;
      var prev := Steps(step, st, lines[..n]);
      StepsCalls(step, filename, st, lines[..n]);
      assert CallsFor(filename, lines[..n]) == CallsFor(filename, lines)[..n];
      if prev.alive {
        var last := step(prev.state, lines[n]);
        assert CallsFor(filename, lines) == CallsFor(filename, lines[..n]) + [Call(filename, lines[n])];
        StripAppend(prev.out, last.out);
      }
    }
  }

  /** The progressive loop calls HandleData on the lines in order with the
      same filename, all of them unless the process exits; while it runs,
      colour and gutter aside, it prints every line followed by a newline. */
  lemma RunLinesCalls(env: Env, cfg: Config, st: ResolverState, filename: string, lines: seq<string>)
    ensures var r := RunLines(env, cfg, st, filename, lines);
      r.calls <= CallsFor(filename, lines) && (r.alive ==> r.calls == CallsFor(filename, lines))
    ensures var r := RunLines(env, cfg, st, filename, lines);
      r.alive ==> Strip(r.out) == Terminated(lines)
  {
    var step := Handler(env, cfg, filename);
    forall s, l
      ensures step(s, l).calls == [Call(filename, l)]
      ensures step(s, l).alive ==> Strip(step(s, l).out) == l + "\n"
    {
      HandleStepText(env, cfg, s, filename, l);
    }
    StepsCalls(step, filename, st, lines);
  }

  /** Once the process has exited, later lines change nothing. */
  lemma {:induction false} StepsStopped(step: (ResolverState, string) -> Run, st: ResolverState, a: seq<string>, b: seq<string>)
    requires !Steps(step, st, a).alive
    ensures Steps(step, st, a + b) == Steps(step, st, a)
    decreases |b|
  {
    if b != [] {
      var b' := b[..|b| - 1];
      StepsStopped(step, st, a, b');
      assert (a + b)[..|a + b| - 1] == a + b';
    } else {
      assert a + b == a;
    }
  }

  /** The loop over a + b is the loop over a, then the loop over b from
      the state a left. */
  lemma {:induction false} StepsAppend(step: (ResolverState, string) -> Run, st: ResolverState, a: seq<string>, b: seq<string>)
    requires Steps(step, st, a).alive
    ensures var ra := Steps(step, st, a);
      Steps(step, st, a + b) == Then(ra, Steps(step, ra.state, b))
    decreases |b|
  {
    var ra := Steps(step, st, a);
    if b == [] {
      assert a + b == a;
      assert ra.out + [] == ra.out && ra.calls + [] == ra.calls;
    } else {
      var b' := b[..|b| - 1];
      var x := b[|b| - 1];
      StepsAppend(step, st, a, b');
      assert (a + b)[..|a + b| - 1] == a + b';
      assert (a + b)[|a + b| - 1] == x;
      var rb' := Steps(step, ra.state, b');
      if rb'.alive {
        var last := step(rb'.state, x);
        assert ra.out + rb'.out + last.out == ra.out + (rb'.out + last.out);
        assert ra.calls + rb'.calls + last.calls == ra.calls + (rb'.calls + last.calls);
      }
    }
  }

  lemma {:induction false} EachAppend(render: string -> seq<Token>, a: seq<string>, b: seq<string>)
    ensures Each(render, a + b) == Each(render, a) + Each(render, b)
    decreases |b|
  {
    if b == [] {
      assert a + b == a;
    } else {
      var b' := b[..|b| - 1];
      EachAppend(render, a, b');
      assert (a + b)[..|a + b| - 1] == a + b';
      assert (a + b)[|a + b| - 1] == b[|b| - 1];
    }
  }

  /** Detect once, reuse forever: once a definition is cached and no lexer
      is named, every later line is rendered with it, even a line that on
      its own would be detected as something else. */
  lemma {:induction false} StickyDefinition(env: Env, cfg: Config, st: ResolverState, filename: string, lines: seq<string>, d: SyntaxDef)
    requires cfg.lexer == "" && st.def == Some(d)
    requires env.loadDefs(ChooseSynDir(env, st.synDir)).Some?
    ensures var r := RunLines(env, cfg, st, filename, lines);
      r.alive && r.out == Each(Renderer(env, cfg, d), lines) &&
      r.state == ResolverState(if lines == [] then st.synDir else ChooseSynDir(env, st.synDir), Some(d))
    decreases |lines|
  {
    SynDirSettles(env, st.synDir);
    if lines != [] {
      var n := |lines| - 1;
      StickyDefinition(env, cfg, st, filename, lines[..n], d);
      var prev := RunLines(env, cfg, st, filename, lines[..n]);
      CachedDefinitionReused(env, prev.state, filename, lines[n]);
      var h := HandleStep(env, cfg, prev.state, filename, lines[n]);
      assert Handler(env, cfg, filename)(prev.state, lines[n]) == h;
      assert RunLines(env, cfg, st, filename, lines) == Then(prev, h);
      assert h.out == Renderer(env, cfg, d)(lines[n]);
      assert Each(Renderer(env, cfg, d), lines) == Each(Renderer(env, cfg, d), lines[..n]) + Renderer(env, cfg, d)(lines[n]);
    }
  }

  /** A readable lexer file that parses to d renders every line with d,
      whatever was detected or cached before. */
  lemma {:induction false} OverrideEveryLine(env: Env, cfg: Config, st: ResolverState, filename: string, lines: seq<string>, file: string, d: SyntaxDef)
    requires cfg.lexer != ""
    requires env.loadDefs(ChooseSynDir(env, st.synDir)).Some?
    requires env.readFile(LexerPath(ChooseSynDir(env, st.synDir), cfg.lexer)) == Some(file)
    requires env.parseDef(file) == Some(d)
    ensures var r := RunLines(env, cfg, st, filename, lines);
      r.alive && r.out == Each(Renderer(env, cfg, d), lines) &&
      (lines != [] ==> r.state == ResolverState(ChooseSynDir(env, st.synDir), Some(d)))
    decreases |lines|
  {
    SynDirSettles(env, st.synDir);
    if lines != [] {
      var n := |lines| - 1;
      OverrideEveryLine(env, cfg, st, filename, lines[..n], file, d);
      var prev := RunLines(env, cfg, st, filename, lines[..n]);
      ReadableOverrideWins(env, cfg.lexer, prev.state, filename, lines[n], file);
      var h := HandleStep(env, cfg, prev.state, filename, lines[n]);
      assert Handler(env, cfg, filename)(prev.state, lines[n]) == h;
      assert RunLines(env, cfg, st, filename, lines) == Then(prev, h);
      assert h.out == Renderer(env, cfg, d)(lines[n]);
      assert Each(Renderer(env, cfg, d), lines) == Each(Renderer(env, cfg, d), lines[..n]) + Renderer(env, cfg, d)(lines[n]);
    }
  }

  /** While no line is detected, every line is echoed and nothing is
      cached. */
  lemma {:induction false} UndetectedLinesEchoed(env: Env, cfg: Config, st: ResolverState, filename: string, lines: seq<string>)
    requires cfg.lexer == "" && st.def.None?
    requires env.loadDefs(ChooseSynDir(env, st.synDir)).Some?
    requires forall j :: 0 <= j < |lines| ==>
      env.detect(env.loadDefs(ChooseSynDir(env, st.synDir)).value, filename, FirstLine(lines[j])).None?
    ensures var r := RunLines(env, cfg, st, filename, lines);
      r.alive && r.out == Each(Echo, lines) &&
      r.state == ResolverState(if lines == [] then st.synDir else ChooseSynDir(env, st.synDir), None)
    decreases |lines|
  {
    SynDirSettles(env, st.synDir);
    if lines != [] {
      var n := |lines| - 1;
      UndetectedLinesEchoed(env, cfg, st, filename, lines[..n]);
      var prev := RunLines(env, cfg, st, filename, lines[..n]);
      FailedDetectionNotCached(env, prev.state, filename, lines[n]);
      var h := HandleStep(env, cfg, prev.state, filename, lines[n]);
      assert Handler(env, cfg, filename)(prev.state, lines[n]) == h;
      assert RunLines(env, cfg, st, filename, lines) == Then(prev, h);
      assert h.out == Echo(lines[n]);
      assert Each(Echo, lines) == Each(Echo, lines[..n]) + Echo(lines[n]);
    }
  }

  /** Progressive mode detects from the first line that detects at all:
      the lines before it are echoed, it and every later line are rendered
      with its definition, which stays cached. */
  lemma DetectOnce(env: Env, cfg: Config, st: ResolverState, filename: string, lines: seq<string>, k: nat, d: SyntaxDef)
    requires cfg.lexer == "" && st.def.None?
    requires env.loadDefs(ChooseSynDir(env, st.synDir)).Some?
    requires k < |lines|
    requires forall j :: 0 <= j < k ==>
      env.detect(env.loadDefs(ChooseSynDir(env, st.synDir)).value, filename, FirstLine(lines[j])).None?
    requires env.detect(env.loadDefs(ChooseSynDir(env, st.synDir)).value, filename, FirstLine(lines[k])) == Some(d)
    ensures var r := RunLines(env, cfg, st, filename, lines);
      r.alive && r.state.def == Some(d) && r.out == Each(Echo, lines[..k]) + Each(Renderer(env, cfg, d), lines[k..])
  {
    var step := Handler(env, cfg, filename);
    SynDirSettles(env, st.synDir);
    UndetectedLinesEchoed(env, cfg, st, filename, lines[..k]);
    var before := RunLines(env, cfg, st, filename, lines[..k]);
    var rest := lines[k..];
    assert lines == lines[..k] + rest;
    StepsAppend(step, st, lines[..k], rest);
    // The line at k is detected as d, which is then cached.
    var head := rest[..1];
    assert head[..0] == [] && head[0] == lines[k];
    FailedDetectionNotCached(env, before.state, filename, lines[k]);
    var first := Steps(step, before.state, head);
    assert Steps(step, before.state, head[..0]) == Run(before.state, [], true, []);
    assert first == Then(Run(before.state, [], true, []), step(before.state, lines[k]));
    assert first.alive && first.state.def == Some(d);
    assert first.out == Each(Renderer(env, cfg, d), head);
    assert rest == head + rest[1..];
    StepsAppend(step, before.state, head, rest[1..]);
    StickyDefinition(env, cfg, first.state, filename, rest[1..], d);
    EachAppend(Renderer(env, cfg, d), head, rest[1..]);
  }

  // One more scanned line: how the loops extend the run.

  lemma RunLinesStep(env: Env, cfg: Config, st: ResolverState, filename: string, lines: seq<string>, i: nat)
    requires i < |lines| && RunLines(env, cfg, st, filename, lines[..i]).alive
    ensures var prev := RunLines(env, cfg, st, filename, lines[..i]);
      RunLines(env, cfg, st, filename, lines[..i + 1]) == Then(prev, HandleStep(env, cfg, prev.state, filename, lines[i]))
  {
    assert lines[..i + 1][..i] == lines[..i];
  }

  lemma RunLinesStopped(env: Env, cfg: Config, st: ResolverState, filename: string, lines: seq<string>, i: nat)
    requires i <= |lines| && !RunLines(env, cfg, st, filename, lines[..i]).alive
    ensures RunLines(env, cfg, st, filename, lines) == RunLines(env, cfg, st, filename, lines[..i])
  {
    StepsStopped(Handler(env, cfg, filename), st, lines[..i], lines[i..]);
    assert lines[..i] + lines[i..] == lines;
  }
}
