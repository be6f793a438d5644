/** What a harness script gets back from a command it runs with `execSync`,
    and the exit statuses it ends with. A script that reaches its last
    statement without calling `process.exit` ends with status 0. */
module Process {
  import opened Lines

  /** The captured standard output, or the thrown error, whose `stdout` may be undefined. */
  datatype Exec = Returned(stdout: string) | Threw(errorStdout: Option<string>)

  /** A run that ends without `process.exit` (or after an error it catches and prints). */
  const Finished: int := 0
  const Failure: int := 1

  /** `error.stdout || ''`: an undefined or empty capture both read as "". */
  function CaughtOutput(e: Option<string>): (r: string)
    ensures e.Some? ==> r == e.value
    ensures e.None? ==> r == ""
  {
    OrDefault(e, "")
  }
}
