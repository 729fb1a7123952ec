# zaje in Dafny

zaje is a command-line syntax highlighter (jessp01/zaje, Go). This project
models its core:

- **Resolving the definition** (`getDefs`). The syntax directory falls back
  from an explicit setting to the per-user directory, then to the global one.
  A definition is detected only while none is cached, and a failed detection
  is not cached. An explicit lexer file, when readable, overrides the
  definition on every call.
- **Rendering** (`colourOutput`). Each line is scanned column by column. The
  colour changes only where the engine's classification of the line has an
  entry, through a first-match-wins group-to-colour table, and carries
  forward otherwise. It is reset at every line end. With `-ln`, each line
  gets a right-aligned line-number gutter.
- **The fallback** (`HandleData`). When no definition is found, the data is
  echoed verbatim.
- **The three command-line Actions**:
  - `cmd/zaje.go`: input from a file, a URL, all of stdin, or stdin line by
    line (`-`).
  - the older standalone `zaje.go`, with its own copy of the library and a
    different colour table.
  - `cmd/super-zaje/super-zaje.go`, which replaces image data with OCR text.
    With `-rln` it also removes line numbers from that text.

Modules:

- `Text`: Go's `strings.Split`/`Join` on `"\n"` and decimal printing.
- `Terminal`: what reaches the terminal, as a sequence of tokens: characters,
  gutter characters, colour set/unset, newlines. `Strip`, `Printed` and
  `Styled` interpret those tokens.
- `Engine`: the gohighlight engine, the filesystem, HTTP, MIME sniffing and
  OCR, as function values in an `Env`.
- `Resolver`: one `getDefs` call, as a function of the cached state.
- `Render`: the colour tables and what `colourOutput` prints.
- `Pipeline`: one `HandleData` call and the progressive loop, as functions.
- `Input`: the Actions' dispatch.
- `Zaje`: the library's package state as class `Session`. Its methods
  `GetDefs`, `ColourOutput` and `HandleData` are proved against the
  functions above.
- `Cli`: the Action of `cmd/zaje.go`.
- `Standalone`: `zaje.go`, with its own state as class `Program`.
- `SuperZaje`: the Action of super-zaje and the line-number removal.

## Model

| member | source | states |
|---|---|---|
| Text.SplitTerminated | common_functions.go:175 | Printing each piece of the split followed by a newline gives the text and one final newline. |
| Text.SplitPiecesHaveNoNewline | common_functions.go:175 | No piece of the split contains "\n". |
| Text.SplitCount | common_functions.go:175 | n newlines give n + 1 pieces, so a trailing newline gives a final empty piece. |
| Text.JoinSplit | common_functions.go:175 | Joining the pieces with "\n" gives the text back. |
| Text.SplitJoin | common_functions.go:175 | Splitting a join of newline-free pieces gives the pieces back. |
| Text.SplitCons | common_functions.go:175 | A line without newline, "\n" and more text split into that line and then the pieces of the rest. |
| Text.FirstLineIsPrefix | common_functions.go:145-146 | The first piece is the longest newline-free prefix of the data, and the whole data when there is no newline. |
| Text.DigitsValue | common_functions.go:176-184 | A number printed in decimal reads back as the number, and every character printed is a digit. |
| Resolver.Resolve | common_functions.go:122-172 | The directory is the chosen fallback. The call is fatal exactly when the definitions in that directory fail to load, and then the cache is untouched. Otherwise it reports "no definition" exactly when no definition is cached afterwards, and else the engine's matches for the whole data under that definition. |
| Resolver.SynDirSettles | common_functions.go:124-134 | A non-empty syntax directory is never changed, and choosing again from a chosen directory gives it back. |
| Resolver.CachedDefinitionReused | common_functions.go:145-147 | With a definition cached and no lexer set, the call does not re-detect. It classifies the whole data with the cached definition and keeps it. |
| Resolver.FailedDetectionNotCached | common_functions.go:145-147 | With nothing cached, the definition becomes what detection on this call's first line gives. When that is nothing, the call reports no definition, so the next call detects again. |
| Resolver.ReadableOverrideWins | common_functions.go:150-156 | A readable `<dir>/<lexer>.yaml` decides the definition on every call, whatever was cached, even when it parses to nil. |
| Resolver.UnreadableOverrideKeepsDetection | common_functions.go:150-156 | An unreadable lexer file leaves the cached or detected definition in place. |
| Zaje.Session.GetDefs | common_functions.go:122-172 | The method's new directory, cache and result are those of `Resolve` from the old state. |
| Zaje.Session.ColourLine | common_functions.go:185-253 | Appends to the output each character of the line, preceded by the colour token its column's entry selects, if it has one. |
| Zaje.Session.ColourOutput | common_functions.go:174-258 | Appends exactly the rendering of every line of the data: the gutter when numbering, the coloured characters, a reset and a newline. |
| Zaje.Session.HandleData | common_functions.go:260-268 | State, output, call log and survival are those of one `HandleStep`. |
| Zaje.KeywordLikeSpecial | common_functions.go:205-210 | Many-to-one table: "type.keyword" falls through to the arm of "special", and both are red. |
| Zaje.LibTableUnsets | common_functions.go:187-249 | "default", "" and every tag no arm lists all unset the colour. |
| Render.LookupFirstMatch | common_functions.go:187-249 | The first arm listing a tag decides its colour, whatever later arms say. |
| Render.LookupUnlisted | common_functions.go:247-248 | A tag no arm lists takes the default branch and unsets. |
| Render.ColourOutputText | common_functions.go:175-256 | Deleting colour tokens and gutters from the output leaves the data and one final newline: every character once, in order. Without numbering nothing else is printed. |
| Render.RenderLinesText | common_functions.go:177-257 | The lines printed so far, colour and gutter aside, are each line followed by a newline. |
| Render.LineOutText | common_functions.go:177-257 | One line's output, colour and gutter aside, is the line and a newline. |
| Render.BodyText | common_functions.go:185-253 | A line's characters are printed once each, in order. |
| Render.GutterFacts | common_functions.go:179-184 | A gutter prints the padding, the number and one space, w + 1 characters in all. It shows no text and ends with the colour unset. |
| Render.GutterFits | common_functions.go:176-180 | The width is the digit count of the number of lines, counting a trailing empty line. No line number needs negative padding. |
| Render.ColumnFacts | common_functions.go:186-251 | A column prints its character once. It switches to the colour of the entry there, if any, and otherwise keeps the previous colour. |
| Render.BodyColours | common_functions.go:185-253 | Each character of a line shows the colour of the nearest entry at or before its column. Before the first entry it shows the colour active at line start. |
| Render.LineOutColours | common_functions.go:177-257 | A line starting uncoloured shows its characters as its classification says. The gutter shows no text, and the line leaves the terminal uncoloured. |
| Render.RenderLinesColours | common_functions.go:177-257 | Over all lines, each character has the colour its own line's classification gives, and the terminal ends uncoloured. |
| Render.ColourOutputColours | common_functions.go:174-258 | The colour of every printed character is determined by its line's entries alone: colour never leaks from one line to the next. |
| Render.NumberedLinePrinted | common_functions.go:179-256 | With `-ln`, a line prints as the padded number, one space, the line and a newline. |
| Render.RenderLinesPrinted | common_functions.go:175-256 | With `-ln`, what reaches the terminal is the numbered lines, each followed by a newline. |
| Render.Numbered | common_functions.go:176-182 | There is one numbered line per line. |
| Pipeline.EchoFacts | common_functions.go:263-266 | The echo prints the data and one newline, uncoloured. |
| Pipeline.HandleStepText | common_functions.go:260-268 | With no definition, the data is echoed with no colour and no gutter. Whenever the process survives, the text printed is the data and a newline. Exactly one call is logged. |
| Pipeline.RunLinesCalls | cmd/zaje.go:124-130 | The progressive loop calls HandleData on a prefix of the lines, in order, each with the same filename, and on all of them when the process survives. It then prints each line followed by a newline. |
| Pipeline.StepsCalls | cmd/zaje.go:124-130 | The same, for any step function that logs one call per line and echoes the line when alive. |
| Pipeline.StepsStopped | cmd/zaje.go:127-130 | Once the process has exited, later lines change nothing. |
| Pipeline.StepsAppend | cmd/zaje.go:127-130 | The loop over a + b is the loop over a, then the loop over b from the state a left. |
| Pipeline.EachAppend | cmd/zaje.go:127-130 | Rendering a + b line by line is rendering a, then b. |
| Pipeline.StickyDefinition | common_functions.go:145-147 | With a definition cached and no lexer, every line is rendered with it and the cache never changes, whatever a line would be detected as. |
| Pipeline.OverrideEveryLine | common_functions.go:150-156 | A readable lexer file parsing to d renders every line with d. |
| Pipeline.UndetectedLinesEchoed | common_functions.go:145-147 | While no line is detected, every line is echoed and nothing is cached. |
| Pipeline.DetectOnce | cmd/zaje.go:124-130 | Lines before the first line that detects are echoed. That line and all later ones are rendered with its definition, which stays cached. |
| Pipeline.RunLinesStep | cmd/zaje.go:127-130 | One more scanned line is one more HandleData call from the state the loop reached. |
| Pipeline.RunLinesStopped | cmd/zaje.go:127-130 | An exit in the loop ends it. |
| Input.Dispatch | cmd/zaje.go:104-143 | Exactly one branch is taken. "No input" iff not piped and no argument. "Named" iff not piped with an argument, which is the first argument. "Progressive" iff piped with first argument "-". "Batch" iff piped otherwise. |
| Cli.Action | cmd/zaje.go:93-145 | Result, state, output and call log are those of `Cli.ActionSpec` from the old state. |
| Cli.NoInputRejected | cmd/zaje.go:104-107 | Not piped and no argument: the error, nothing printed, no call. |
| Cli.NamedCalledOnce | cmd/zaje.go:108-121 | A URL is fetched, and a failed request exits before HandleData. Anything else is read as a file. HandleData is called exactly once, with the argument as filename hint. When the process survives, it prints the data and a newline. |
| Cli.ProgressiveLineByLine | cmd/zaje.go:124-134 | Piped with "-": one call per scanned line, in order, with filename "", and all of them unless the process exits. A scanner error is then the Action's error. |
| Cli.BatchCalledOnce | cmd/zaje.go:136-141 | Piped without "-": one call on all of stdin with filename "". A read error panics before it. |
| Standalone.Program.GetDefs | zaje.go:34-84 | As `Zaje.Session.GetDefs`, on this program's own globals. |
| Standalone.Program.ColourLine | zaje.go:90-152 | Appends each character preceded by the colour token its entry selects, using this program's table. |
| Standalone.Program.ColourOutput | zaje.go:86-157 | Appends exactly the rendering of every line, with no gutter. |
| Standalone.Program.HandleData | zaje.go:159-166 | State, output, call log and survival are those of one `HandleStep` without numbering. |
| Standalone.Program.Action | zaje.go:236-275 | Result, state, output and call log are those of `Standalone.ActionSpec`. |
| Standalone.ColourOutputNoGutter | zaje.go:86-157 | With colour deleted, the output is the data and one newline, and nothing else is printed. The terminal is left uncoloured. |
| Standalone.StringsCyan | zaje.go:117-128 | "constant.string" is cyan here and hi-magenta in the library. |
| Standalone.OperatorsCyan | zaje.go:123-128 | "symbol.operator" is cyan here and yellow in the library. |
| Standalone.VariablesMagenta | zaje.go:130-135 | "identifier.var" is hi-magenta here and cyan in the library. |
| Standalone.TablesUnlisted | zaje.go:92-148 | "type.keyword" and "constant.bool", which the library colours, are in no arm here, so they unset. |
| Standalone.NoInputRejected | zaje.go:245-248 | Not piped and no argument: this program's error message, nothing printed, no call. |
| Standalone.NamedCalledOnce | zaje.go:249-251 | The argument is always read as a file (there is no URL case here), then handled once. |
| Standalone.ProgressiveLineByLine | zaje.go:254-264 | Piped with "-": one call per scanned line, in order, with filename "". A scanner error is the result. |
| Standalone.BatchCalledOnce | zaje.go:266-271 | Piped without "-": one call on all of stdin. |
| SuperZaje.Action | cmd/super-zaje/super-zaje.go:99-174 | Result, state, output and call log are those of `SuperZaje.ActionSpec` from the old state. Under `-rln` the OCR text goes through the regex replacement as written. |
| SuperZaje.SameAsZajeUnlessImage | cmd/super-zaje/super-zaje.go:99-174 | Apart from a named argument whose data sniffs as an image, super-zaje does exactly what zaje's Action does. |
| SuperZaje.ImageReplacedByOcr | cmd/super-zaje/super-zaje.go:127-150 | Image data is never highlighted itself. HandleData gets the OCR text once, with the argument as filename hint. That text goes through `ReplaceAllString` with `(?m)^\s*\d+\s(.*)` and `$1` exactly when `-rln` is set. A failed OCR ends the process first. |
| SuperZaje.SpanEnd | cmd/super-zaje/super-zaje.go:144 | A greedy run ends at the first character outside its class. |
| SuperZaje.SpanEndExact | cmd/super-zaje/super-zaje.go:144 | A greedy run is exactly the stretch of characters in the class. |
| SuperZaje.NumberMatch | cmd/super-zaje/super-zaje.go:144-145 | A match of `(?m)^\s*\d+\s(.*)` at a position consumes at least one character and stays within the text. |
| SuperZaje.AsWrittenMergesLines | cmd/super-zaje/super-zaje.go:144-145 | As written, "10\n11 x" becomes "11 x". The line "10" vanishes with its newline, and the next line keeps its number unstripped. |
| SuperZaje.AsWrittenDropsBlankLine | cmd/super-zaje/super-zaje.go:144-145 | As written, "1 a\n\n3 c" becomes "a\nc". The empty line vanishes, because `\s*` runs from its start across its newline to the next number. |
| SuperZaje.AsWrittenAgreesOnOneLine | cmd/super-zaje/super-zaje.go:144-145 | On a text without newlines, the replacement as written and the per-line strip agree: they differ only across lines. |
| SuperZaje.SpansInLine | cmd/super-zaje/super-zaje.go:144 | Within one line, the pattern's `\s*` and `\d+` runs are the line's blank run and digit run. |
| SuperZaje.LineMatch | cmd/super-zaje/super-zaje.go:144-145 | At the start of a line that is the last one or is not number-only, the pattern fails exactly when the per-line strip keeps the line. Otherwise `(.*)` captures exactly what the strip keeps, up to the line end. |
| SuperZaje.CopiedInLine | cmd/super-zaje/super-zaje.go:144-145 | After the first character of a line nothing matches, because `^` needs a line start. The rest of the line is copied unchanged. |
| SuperZaje.LineStep | cmd/super-zaje/super-zaje.go:144-145 | Over one such line, the replacement writes the stripped line and goes on at the line end. |
| SuperZaje.StripLinesCons | cmd/super-zaje/super-zaje.go:143-146 | The per-line strip of a line, a newline and more text is the stripped line, the newline and the strip of the rest. |
| SuperZaje.AgreesFrom | cmd/super-zaje/super-zaje.go:143-146 | From any line start, if no line but the last is number-only, the replacement as written equals the per-line strip of the rest of the text. |
| SuperZaje.AsWrittenAgrees | cmd/super-zaje/super-zaje.go:143-146 | If no line but the last is blanks and digits alone (an empty line included), the replacement as written equals the per-line strip. They can differ only when such a line comes before another line. |
| SuperZaje.SpacesAreBlanks | cmd/super-zaje/super-zaje.go:144 | Without newlines, `\s` runs and blank runs coincide. |
| SuperZaje.StripLineNumbersPerLine | cmd/super-zaje/super-zaje.go:143-146 | The corrected replacement keeps the number of lines, and each line of its result is the stripped line. |
| SuperZaje.StripLineGutter | cmd/super-zaje/super-zaje.go:144-145 | Padding, a number and one space are removed, and only the first number goes. Such a line is never number-only. |
| SuperZaje.StripLineBareNumber | cmd/super-zaje/super-zaje.go:144-145 | A line of padding and digits alone is kept. |
| SuperZaje.ExampleLines | cmd/super-zaje/super-zaje.go:144-145 | "10\n11 x" has the two lines "10" and "11 x". |
| SuperZaje.ExampleStrips | cmd/super-zaje/super-zaje.go:144-145 | "10" is kept and "11 x" becomes "x". |
| SuperZaje.CorrectedKeepsLines | cmd/super-zaje/super-zaje.go:144-145 | The corrected replacement turns "10\n11 x" into "10\nx". |
| SuperZaje.CorrectedKeepsBlankLine | cmd/super-zaje/super-zaje.go:144-145 | The corrected replacement turns "1 a\n\n3 c" into "a\n\nc", keeping the empty line. |
| SuperZaje.StripNumbered | cmd/super-zaje/super-zaje.go:144-145 | Each numbered line that zaje prints strips back to its line. |
| SuperZaje.NumberedLineNoNewline | common_functions.go:179-182 | A numbered line holds no newline of its own. |
| SuperZaje.NumberedOutputSplits | common_functions.go:175-256 | zaje's numbered output splits into one numbered line per data line, then the empty piece after the final newline. |
| SuperZaje.NumberedHasNoNumberOnlyLine | common_functions.go:179-184 | No line of numbered output is number-only: the gutter's number is always followed by a space. |
| SuperZaje.StripUndoesNumbering | cmd/super-zaje/super-zaje.go:143-146 | The corrected per-line strip of zaje's numbered output gives back the data and the final newline. |
| SuperZaje.RemoveUndoesAdd | cmd/super-zaje/super-zaje.go:143-146 | `-rln` undoes `-ln`. The replacement as written, applied to zaje's numbered output, gives back the data and the final newline, and so does the corrected strip. This holds even when a data line starts with a number of its own. |

## Left out

- Escape bytes: fatih/color's escape sequences and its NoColor detection are
  not modelled. Colours are tokens.
- Group identity: gohighlight's `Groups` table is not modelled. Groups are
  identified by name, whereas Go compares group ids, and names the engine
  never registered all map to id 0, so they alias each other and `default`.
- Invalid UTF-8: Go's `range` over a string decodes UTF-8. Data is modelled
  as a sequence of characters, so invalid byte sequences are not modelled.
- Debug output: the debug printing (`printDebugInfo`, ParseSyntaxFiles
  warnings) is diagnostic only.
- CLI metadata: `PopulateAppMetadata`, help templates, flag definitions and
  version strings are configuration. The flags' values are the
  constructors' parameters.
- Process exits: `log.Fatal` in main after the Action returns an error is
  not modelled.
- Engine: gohighlight's ParseSyntaxFiles/ResolveIncludes, DetectFiletype,
  ParseDef and HighlightString are the `Env` functions. So are `os.Stat`,
  `ioutil.ReadFile`, `http.Get` with its body read, `http.DetectContentType`,
  `$HOME`, and gosseract with `DownloadFile` and the temporary file. The
  engine is assumed to return one classification per line
  (`EngineCovers`); colourOutput would panic indexing `matches` otherwise.
- HTTP errors: the HTTP status is not checked. A failed body read is ignored
  by the source, and `httpGet` yields whatever data was read.
- File read errors: `ReadFile` errors give empty data (`FileData`). Partial
  data on an error is not modelled.
- OCR of local files: `ocr` abstracts downloading and reading the image. For
  a local file the source's `DownloadFile` fails (its error is ignored), so
  OCR then reads whatever is at the temporary path. The model does not
  capture that.
- Scanner: `bufio.Scanner` details (stripping "\r", the 64 KiB token limit)
  are not modelled. The scanned lines and the final error are inputs.
- Stat panic: the panic when `os.Stdin.Stat` fails is not modelled. Whether
  stdin is a pipe is an input.
- Override file that parses to nil: the explicit lexer override follows the
  code. An unreadable lexer file keeps the detected definition, and a
  readable one that parses to nil clears it.
- Changes during a run: `Env` is one fixed value for a whole run. But
  `getDefs` re-reads `<dir>/<lexer>.yaml` and the syntax files on every call
  (common_functions.go:124-156), and with `-` that is once per scanned line
  (cmd/zaje.go:127-130). The model treats the file system, `$HOME`, the
  syntax files and the engine as constant over one run. Changes between
  lines are not modelled, and Pipeline.OverrideEveryLine,
  Pipeline.StickyDefinition and Pipeline.DetectOnce rely on this.

## Findings

| source | as written | input that shows it | evidently intended | confidence | as-written member | corrected member |
|---|---|---|---|---|---|---|
| cmd/super-zaje/super-zaje.go:144-145 | `(?m)^\s*\d+\s(.*)` replaced by `$1` over the whole OCR text. `\s` also matches "\n". So on a line holding only a number, `\s` takes the newline and `(.*)` captures the next line whole. | "10\n11 x" becomes "11 x": the line "10" vanishes with its newline, and the next line keeps its number unstripped. | Remove a leading number and one blank per line, keeping every line: "10\nx". | not executed | SuperZaje.AsWrittenMergesLines | SuperZaje.CorrectedKeepsLines |
| cmd/super-zaje/super-zaje.go:144-145 | The same replacement. `\s*` also matches "\n", so an empty or whitespace-only line directly before a numbered line is consumed by the match that starts at its own line start. | "1 a\n\n3 c" becomes "a\nc": the empty line vanishes and the next line is stripped. | Keep the empty line: "a\n\nc". | not executed | SuperZaje.AsWrittenDropsBlankLine | SuperZaje.CorrectedKeepsBlankLine |
