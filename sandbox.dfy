/** The bounded runner, `run_code` (backend/executor/sandbox.py): materialise
    the inputs, run the wrapper under a deadline, and turn what happened into
    an `ExecResult`. What the child process does is a parameter of the model. */
module Sandbox {
  import opened Types
  import opened Strings
  import opened Workspace
  import opened OutputProtocol
  import FriendlyError

  /** What `subprocess.run` reports about the child. */
  datatype ProcessOutcome =
    | Exited(stdout: string, stderr: string)  // finished in time; the captured text
    | TimedOut                                // `subprocess.TimeoutExpired`
    | Raised(message: string)                 // any other exception, as `str(e)`

  /** The deadline passed to `subprocess.run`. */
  const TimeoutSeconds: nat := 10

  const TimeoutLead := "\U{23F1} Execution timed out after "
  const TimeoutTail := " seconds. Check for infinite loops."

  function TimeoutMessage(): string {
    TimeoutLead + NatToDecimal(TimeoutSeconds) + TimeoutTail
  }

  /** The result when the deadline passed: no image, no logs. */
  function TimeoutResult(): ExecResult {
    ExecResult(None, "", TimeoutMessage())
  }

  /** The result when the orchestration itself raised `e`: no image, no logs. */
  function FailureResult(e: string): ExecResult {
    ExecResult(None, "", "Execution failed: " + e)
  }

  /** What `run_code` returns, given what the child does with the directory it
      sees (`child`) and the text of the exception a failing upload write raises. */
  function BoundedResult(code: string, uploads: Option<seq<Upload>>,
                         child: Files -> ProcessOutcome, writeError: string): ExecResult
  {
    if !UploadsWritable(uploads) then FailureResult(writeError)
    else
      match child(Materialised(code, uploads))
      case Exited(stdout, stderr) => Parse(stdout, stderr)
      case TimedOut => TimeoutResult()
      case Raised(e) => FailureResult(e)
  }

  /** `run_code(code, uploaded_files)`. */
  method RunCode(code: string, uploads: Option<seq<Upload>>,
                 child: Files -> ProcessOutcome, writeError: string) returns (r: ExecResult)
    ensures r == BoundedResult(code, uploads, child, writeError)
  {
    var dir, ok := Materialise(code, uploads);
    if !ok {
      return FailureResult(writeError);
    }
    var outcome := child(dir.files);
    match outcome {
      case Exited(stdout, stderr) =>
        r := ParseStreams(stdout, stderr);
      case TimedOut =>
        r := TimeoutResult();
      case Raised(e) =>
        r := FailureResult(e);
    }
  }

  /** The timeout message names the ten-second budget. */
  lemma TimeoutMessageText()
    ensures TimeoutMessage() == TimeoutLead + "10" + TimeoutTail
  {
    assert NatToDecimal(1) == [Digit(1)] == "1";
    assert NatToDecimal(10) == NatToDecimal(1) + [Digit(0)] == "10";
  }

  /** Only a child that exited in time can yield an image or logs; every other
      path yields neither, and a non-empty error. */
  lemma OnlyNormalExitProducesOutput(code: string, uploads: Option<seq<Upload>>,
                                     child: Files -> ProcessOutcome, writeError: string)
    ensures var r := BoundedResult(code, uploads, child, writeError);
      (r.image.Some? || r.logs != "") ==> UploadsWritable(uploads) && child(Materialised(code, uploads)).Exited?
    ensures var r := BoundedResult(code, uploads, child, writeError);
      !(UploadsWritable(uploads) && child(Materialised(code, uploads)).Exited?) ==>
        r.image == None && r.logs == "" && r.error != ""
  {
  }

  /** A run succeeds (empty error) exactly when the inputs were written, the
      child exited in time, and no stderr line reported an error. */
  lemma SuccessIff(code: string, uploads: Option<seq<Upload>>,
                   child: Files -> ProcessOutcome, writeError: string)
    ensures BoundedResult(code, uploads, child, writeError).error == ""
        <==> && UploadsWritable(uploads)
             && child(Materialised(code, uploads)).Exited?
             && var err := LinesOf(child(Materialised(code, uploads)).stderr);
                forall i :: 0 <= i < |err| ==> !StartsWith(err[i], ErrorTag)
  {
    if UploadsWritable(uploads) {
      var outcome := child(Materialised(code, uploads));
      if outcome.Exited? {
        ErrorIsLastReportedError(outcome.stdout, outcome.stderr);
      }
    }
  }

  /** A blocked import reported on stderr reaches the learner as the hint
      naming the two allowed imports. */
  lemma BlockedImportExplained(stdout: string, stderr: string, i: int)
    requires IsLastTagged(LinesOf(stderr), ErrorTag, i)
    requires Contains(LinesOf(stderr)[i][|ErrorTag|..], "ImportError")
    ensures Contains(Parse(stdout, stderr).error, FriendlyError.AllowedImports)
  {
    ErrorIsLastReportedError(stdout, stderr);
    FriendlyError.ImportErrorNamesAllowedImports(LinesOf(stderr)[i][|ErrorTag|..]);
  }
}
