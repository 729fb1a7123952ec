/** The collaborators the core calls but does not implement: the
    gohighlight engine, the filesystem, HTTP, MIME sniffing and OCR. Each is
    a field of `Env`, a function of its inputs; the environment does not
    change during a run. */
module Engine {
  import opened Wrappers
  import opened Text

  /** An opaque syntax definition (gohighlight's *Def), named by its file
      type. */
  datatype SyntaxDef = SyntaxDef(fileType: string)

  /** The engine's classification of one line: column (in characters) to
      the name of the group that starts at that column. Columns without an
      entry continue the previous group. */
  type LineMatch = map<nat, string>

  datatype Env = Env(
    /** $HOME, from which the per-user syntax directory is built. */
    home: string,
    /** os.Stat(path) succeeds and the path is a directory. */
    isDir: string -> bool,
    /** ParseSyntaxFiles followed by ResolveIncludes on a directory; None
        when it reports the error that makes the program log.Fatal. */
    loadDefs: string -> Option<seq<SyntaxDef>>,
    /** DetectFiletype(defs, filename hint, first line). */
    detect: (seq<SyntaxDef>, string, string) -> Option<SyntaxDef>,
    /** ioutil.ReadFile; None when it returns an error. */
    readFile: string -> Option<string>,
    /** ParseDef of a definition file's contents; None for a nil *Def. */
    parseDef: string -> Option<SyntaxDef>,
    /** NewHighlighter(def).HighlightString(text). */
    highlight: (SyntaxDef, string) -> seq<LineMatch>,
    /** http.Get followed by reading the body; None when http.Get fails. */
    httpGet: string -> Option<string>,
    /** http.DetectContentType. */
    contentType: string -> string,
    /** The OCR text gosseract extracts for the image named by the
        argument; None when client.Text() fails. */
    ocr: string -> Option<string>
  )

  /** HighlightString returns one LineMatch per "\n"-separated line of its
      input; colourOutput indexes matches by line number and relies on it. */
  ghost predicate EngineCovers(env: Env)
  {
    forall d: SyntaxDef, s: string :: |env.highlight(d, s)| == |Split(s)|
  }

  /** `data, _ := ioutil.ReadFile(name)`: the error is ignored and the data
      is then empty. */
  function FileData(env: Env, name: string): string
  {
    match env.readFile(name)
    case Some(d) => d
    case None => ""
  }
}
