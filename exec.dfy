/** What a call to `child_process.exec` can come back with. */
module Exec {

  /** `Ran` is a resolved promise (exit status 0), with the captured streams;
      `Failed` is a rejected one (non-zero exit, timeout, spawn failure), with
      the message of the error it rejects with. */
  datatype Outcome = Ran(stdout: string, stderr: string) | Failed(message: string)

  /** The message of the error `exec` rejects with when the command exits
      with a non-zero status: the command line, then what it wrote to
      standard error. */
  function CommandFailed(command: string, stderr: string): string
  {
    "Command failed: " + command + "\n" + stderr
  }
}
