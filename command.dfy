/** How a command of the CLI ends, as far as these models follow it. */
module Command {

  /** `run()` returned after printing `log`; `process.exit(code)` or `this.exit(code)` after
      printing `log`; or an error escaped `run()` with `message`. */
  datatype Outcome =
    | Completed(log: seq<string>)
    | Exited(code: int, log: seq<string>)
    | Threw(message: string)
}
