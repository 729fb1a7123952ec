/** How each command-line entry point decides where its input comes from:
    whether stdin is a pipe, the positional arguments, and the URL test. */
module Input {
  import opened Wrappers

  /** Where the text comes from: nowhere (an error), a named file or URL,
      stdin line by line ("-"), or all of stdin at once. */
  datatype Source = NoInput | Named(arg: string) | Progressive | Batch

  /** What the action returns: nil, an error, or nothing at all because
      log.Fatal or a panic ended the process. */
  datatype ActionResult = Ok | Err(message: string) | Exit

  /** Standard input as the actions see it: whether it is a named pipe,
      io.ReadAll's result (None on error), and what a bufio.Scanner over it
      yields (its lines, then its error if any). */
  datatype Stdin = Stdin(isPipe: bool, all: Option<string>, scanned: seq<string>, scanError: Option<string>)

  /** c.Args().Get(0): the first argument, or "" when there is none. */
  function FirstArg(args: seq<string>): string
  {
    if |args| >= 1 then args[0] else ""
  }

  /** The branch the action takes. */
  function Dispatch(isPipe: bool, args: seq<string>): (s: Source)
    ensures s.NoInput? <==> !isPipe && |args| == 0
    ensures s.Named? <==> !isPipe && |args| >= 1
    ensures s.Named? ==> s.arg == args[0]
    ensures s.Progressive? <==> isPipe && |args| >= 1 && args[0] == "-"
    ensures s.Batch? <==> isPipe && (|args| == 0 || args[0] != "-")
  {
    if !isPipe then
      if |args| < 1 then NoInput else Named(args[0])
    else if FirstArg(args) == "-" then Progressive
    else Batch
  }

  /** The argument matches ^http(s)?:// . */
  predicate IsUrl(s: string)
  {
    "http://" <= s || "https://" <= s
  }
}
