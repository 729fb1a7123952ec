/** The `zaje` command (cmd/zaje.go): its Action decides where the input
    comes from and hands it to the library's HandleData, once or line by
    line. */
module Cli {
  import opened Wrappers
  import opened Text
  import opened Terminal
  import opened Engine
  import opened Resolver
  import opened Input
  import opened Pipeline
  import opened Zaje

  const NoInputMessage: string := "no input file provided. `zaje` needs a file or data from STDIN"

  /** What the Action does, from the session's state before it. */
  function ActionSpec(env: Env, cfg: Config, st: ResolverState, stdin: Stdin, args: seq<string>): Outcome
  {
    match Dispatch(stdin.isPipe, args)
    case NoInput => Outcome(Run(st, [], true, []), Err(NoInputMessage))
    case Named(arg) =>
      (match Fetch(env, arg)
       case None => Crash(st)
       case Some(data) => Single(HandleStep(env, cfg, st, arg, data)))
    case Progressive => ProgressiveOutcome(env, cfg, st, stdin)
    case Batch => BatchOutcome(env, cfg, st, stdin)
  }

  /** app.Action: the Stat of stdin is a parameter (`stdin.isPipe`), as
      are the arguments. */
  method Action(s: Session, env: Env, stdin: Stdin, args: seq<string>) returns (result: ActionResult)
    requires EngineCovers(env)
    modifies s`synDir, s`def, s`out, s`calls
    ensures var o := ActionSpec(env, s.Cfg(), old(s.State()), stdin, args);
      result == o.result && s.State() == o.run.state && s.out == old(s.out) + o.run.out && s.calls == old(s.calls) + o.run.calls
  {
    var filename := "";
    if !stdin.isPipe {
      if |args| < 1 {
        return Err(NoInputMessage);
      }
      filename := args[0];
      var data: string;
      if IsUrl(filename) {
        var resp := env.httpGet(filename);
        if resp.None? {
          return Exit;
        }
        data := resp.value;
      } else {
        data := FileData(env, filename);
      }
      var alive := s.HandleData(env, filename, data);
      return if alive then Ok else Exit;
    }
    if FirstArg(args) == "-" {
      ghost var st := s.State();
      ghost var out0 := s.out;
      ghost var calls0 := s.calls;
      var i := 0;
      while i < |stdin.scanned|
        invariant 0 <= i <= |stdin.scanned|
        invariant var r := RunLines(env, s.Cfg(), st, filename, stdin.scanned[..i]);
          r.alive && s.State() == r.state && s.out == out0 + r.out && s.calls == calls0 + r.calls
      {
        ghost var prev := RunLines(env, s.Cfg(), st, filename, stdin.scanned[..i]);
        ghost var h := HandleStep(env, s.Cfg(), prev.state, filename, stdin.scanned[i]);
        RunLinesStep(env, s.Cfg(), st, filename, stdin.scanned, i);
        var alive := s.HandleData(env, filename, stdin.scanned[i]);
        Regroup3(out0, prev.out, h.out);
        Regroup3(calls0, prev.calls, h.calls);
        if !alive {
          RunLinesStopped(env, s.Cfg(), st, filename, stdin.scanned, i + 1);
          return Exit;
        }
        i := i + 1;
      }
      assert stdin.scanned[..i] == stdin.scanned;
      if stdin.scanError.Some? {
        return Err(stdin.scanError.value);
      }
      return Ok;
    }
    if stdin.all.None? {
      return Exit;
    }
    var alive := s.HandleData(env, filename, stdin.all.value);
    return if alive then Ok else Exit;
  }

  // What each branch of the Action does.

  /** Without a pipe and without an argument the Action returns the error
      and prints nothing; HandleData is not called. */
  lemma NoInputRejected(env: Env, cfg: Config, st: ResolverState, stdin: Stdin, args: seq<string>)
    requires !stdin.isPipe && |args| == 0
    ensures var o := ActionSpec(env, cfg, st, stdin, args);
      o.result == Err(NoInputMessage) && o.run.out == [] && o.run.calls == [] && o.run.state == st
  {
  }

  /** Without a pipe, the first argument is both the data's origin and the
      filename hint: a URL is fetched over HTTP (a failed request ends the
      process before HandleData), anything else is read as a file; then
      HandleData is called exactly once. */
  lemma NamedCalledOnce(env: Env, cfg: Config, st: ResolverState, stdin: Stdin, args: seq<string>)
    requires !stdin.isPipe && |args| >= 1
    ensures var o := ActionSpec(env, cfg, st, stdin, args);
      !IsUrl(args[0]) ==> o.run.calls == [Call(args[0], FileData(env, args[0]))]
    ensures var o := ActionSpec(env, cfg, st, stdin, args);
      IsUrl(args[0]) && env.httpGet(args[0]).Some? ==> o.run.calls == [Call(args[0], env.httpGet(args[0]).value)]
    ensures var o := ActionSpec(env, cfg, st, stdin, args);
      IsUrl(args[0]) && env.httpGet(args[0]).None? ==> o.result == Exit && o.run.calls == [] && o.run.out == []
    ensures var o := ActionSpec(env, cfg, st, stdin, args);
      o.run.alive ==> o.result == Ok && o.run.calls != [] && Strip(o.run.out) == o.run.calls[0].data + "\n"
    ensures var o := ActionSpec(env, cfg, st, stdin, args);
      !o.run.alive ==> o.result == Exit
  {
    var a := args[0];
    match Fetch(env, a)
    case None =>
    case Some(data) =>
      HandleStepText(env, cfg, st, a, data);
  }

  /** Piped with "-": HandleData is called on the scanned lines, in
      order, each with filename "", all of them unless the process exits;
      then a scanner error is the Action's error. While it runs, colour and
      gutter aside, each line is printed with a newline. */
  lemma ProgressiveLineByLine(env: Env, cfg: Config, st: ResolverState, stdin: Stdin, args: seq<string>)
    requires stdin.isPipe && |args| >= 1 && args[0] == "-"
    ensures var o := ActionSpec(env, cfg, st, stdin, args);
      o.run.calls <= CallsFor("", stdin.scanned)
    ensures var o := ActionSpec(env, cfg, st, stdin, args);
      o.run.alive ==> o.run.calls == CallsFor("", stdin.scanned) && Strip(o.run.out) == Terminated(stdin.scanned)
    ensures var o := ActionSpec(env, cfg, st, stdin, args);
      o.result == if !o.run.alive then Exit else if stdin.scanError.Some? then Err(stdin.scanError.value) else Ok
  {
    RunLinesCalls(env, cfg, st, "", stdin.scanned);
  }

  /** Piped without "-": HandleData is called once, on all of stdin, with
      filename ""; a read error panics before it. */
  lemma BatchCalledOnce(env: Env, cfg: Config, st: ResolverState, stdin: Stdin, args: seq<string>)
    requires stdin.isPipe && (|args| == 0 || args[0] != "-")
    ensures var o := ActionSpec(env, cfg, st, stdin, args);
      stdin.all.None? ==> o.result == Exit && o.run.calls == [] && o.run.out == []
    ensures var o := ActionSpec(env, cfg, st, stdin, args);
      stdin.all.Some? ==>
        o.run.calls == [Call("", stdin.all.value)] &&
        (o.run.alive ==> o.result == Ok && Strip(o.run.out) == stdin.all.value + "\n")
  {
    if stdin.all.Some? {
      HandleStepText(env, cfg, st, "", stdin.all.value);
    }
  }
}
