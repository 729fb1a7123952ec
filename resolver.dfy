/** What getDefs decides on each call, as a function of the state it keeps
    between calls (the syntax directory and the cached definition) and the
    environment. Both copies of getDefs (the library's and the standalone
    program's) are proved against it. */
module Resolver {
  import opened Wrappers
  import opened Text
  import opened Engine

  const GlobalSynDir: string := "/etc/zaje/syntax_files"

  function UserSynDir(home: string): string
  {
    home + "/.config/zaje/syntax_files"
  }

  /** The state getDefs keeps across calls: the syntax directory and the
      cached definition (nil in Go is None). */
  datatype ResolverState = ResolverState(synDir: string, def: Option<SyntaxDef>)

  /** What getDefs ends in: log.Fatal because the directory did not load,
      a nil result, or the engine's classification of the data. */
  datatype Resolution = Fatal | NoDef | Matches(lines: seq<LineMatch>)

  datatype Resolved = Resolved(state: ResolverState, outcome: Resolution)

  /** The directory: an explicit one is kept; otherwise the user directory
      when it is an existing directory, else the global one when it is,
      else it stays empty. */
  function ChooseSynDir(env: Env, synDir: string): string
  {
    if synDir != "" then synDir
    else if env.isDir(UserSynDir(env.home)) then UserSynDir(env.home)
    else if env.isDir(GlobalSynDir) then GlobalSynDir
    else ""
  }

  function LexerPath(dir: string, lexer: string): string
  {
    dir + "/" + lexer + ".yaml"
  }

  /** The definition after auto-detection: detection runs only while
      nothing is cached, on the filename hint and the data's first line. */
  function Detected(env: Env, defs: seq<SyntaxDef>, cached: Option<SyntaxDef>, filename: string, data: string): Option<SyntaxDef>
  {
    if cached.None? then env.detect(defs, filename, FirstLine(data)) else cached
  }

  /** The definition after the explicit lexer: when one is named and its
      file can be read, its parse replaces the definition, nil included;
      otherwise the definition stands. */
  function Overridden(env: Env, dir: string, lexer: string, d: Option<SyntaxDef>): Option<SyntaxDef>
  {
    if lexer == "" then d
    else
      match env.readFile(LexerPath(dir, lexer))
      case Some(file) => env.parseDef(file)
      case None => d
  }

  /** One getDefs call. */
  function Resolve(env: Env, lexer: string, st: ResolverState, filename: string, data: string): (r: Resolved)
    ensures r.state.synDir == ChooseSynDir(env, st.synDir)
    ensures r.outcome.Fatal? <==> env.loadDefs(r.state.synDir).None?
    ensures r.outcome.Fatal? ==> r.state.def == st.def
    ensures !r.outcome.Fatal? ==> (r.outcome.NoDef? <==> r.state.def.None?)
    ensures r.outcome.Matches? ==> r.state.def.Some? && r.outcome.lines == env.highlight(r.state.def.value, data)
  {
    var dir := ChooseSynDir(env, st.synDir);
    match env.loadDefs(dir)
    case None => Resolved(ResolverState(dir, st.def), Fatal)
    case Some(defs) =>
      var def := Overridden(env, dir, lexer, Detected(env, defs, st.def, filename, data));
      Resolved(ResolverState(dir, def), if def.None? then NoDef else Matches(env.highlight(def.value, data)))
  }

  /** Once chosen, the directory never changes: choosing again from the
      chosen one gives it back. */
  lemma SynDirSettles(env: Env, synDir: string)
    ensures ChooseSynDir(env, ChooseSynDir(env, synDir)) == ChooseSynDir(env, synDir)
    ensures synDir != "" ==> ChooseSynDir(env, synDir) == synDir
  {
  }

  /** A cached definition is never re-detected: without an explicit lexer
      the call classifies the whole data with it and keeps it. */
  lemma CachedDefinitionReused(env: Env, st: ResolverState, filename: string, data: string)
    requires st.def.Some?
    requires env.loadDefs(ChooseSynDir(env, st.synDir)).Some?
    ensures Resolve(env, "", st, filename, data).state.def == st.def
    ensures Resolve(env, "", st, filename, data).outcome == Matches(env.highlight(st.def.value, data))
  {
  }

  /** With nothing cached, detection runs on this call's first line; a
      failed detection caches nothing, so the next call detects again. */
  lemma FailedDetectionNotCached(env: Env, st: ResolverState, filename: string, data: string)
    requires st.def.None?
    requires env.loadDefs(ChooseSynDir(env, st.synDir)).Some?
    ensures var defs := env.loadDefs(ChooseSynDir(env, st.synDir)).value;
      Resolve(env, "", st, filename, data).state.def == env.detect(defs, filename, FirstLine(data))
    ensures Resolve(env, "", st, filename, data).state.def.None? ==>
      Resolve(env, "", st, filename, data).outcome == NoDef
  {
  }

  /** A readable lexer file decides the definition on every call, whether
      or not one is cached, even when it parses to nil. */
  lemma ReadableOverrideWins(env: Env, lexer: string, st: ResolverState, filename: string, data: string, file: string)
    requires lexer != ""
    requires env.loadDefs(ChooseSynDir(env, st.synDir)).Some?
    requires env.readFile(LexerPath(ChooseSynDir(env, st.synDir), lexer)) == Some(file)
    ensures Resolve(env, lexer, st, filename, data).state.def == env.parseDef(file)
  {
  }

  /** An unreadable lexer file leaves the (possibly auto-detected)
      definition in place; it does not clear it. */
  lemma UnreadableOverrideKeepsDetection(env: Env, lexer: string, st: ResolverState, filename: string, data: string)
    requires env.loadDefs(ChooseSynDir(env, st.synDir)).Some?
    requires env.readFile(LexerPath(ChooseSynDir(env, st.synDir), lexer)).None?
    ensures var defs := env.loadDefs(ChooseSynDir(env, st.synDir)).value;
      Resolve(env, lexer, st, filename, data).state.def == Detected(env, defs, st.def, filename, data)
  {
  }
}
