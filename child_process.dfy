/** `child_process.exec` seen from its callback: the command failed (non-zero exit or could
    not start), or it succeeded with some standard output. */
module ChildProcess {

  datatype ExecOutcome = ExecFailed | ExecOutput(stdout: string)
}
