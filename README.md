# A verified model of the code-execution orchestrator

This project models the part of an OpenCV learning site's backend that runs a
learner's Python code and turns what happened into a `{image_b64, logs, error}`
record. The backend has two runners:

* the **bounded runner** (`run_code`) runs the code under a 10-second deadline
  through an entry-point wrapper and reads the wrapper's tagged output back;
* the **foreground runner** (`run_local`) starts the code as a desktop process
  with camera access. It keeps at most one such process, in a single-slot
  registry that `stop_local` and a per-launch watcher (`_cleanup`) also update.

The HTTP handler (`execute_code`) builds the upload list from an optional
image, sends code that mentions `cv2.VideoCapture` to the foreground runner and
all other code to the bounded runner, and maps the runner's dictionary onto
its response.

Modules, in dependency order:

| file | module | models |
|---|---|---|
| `types.dfy` | `Types` | `Option` (Python's `None`) and `byte` |
| `strings.dfy` | `Strings` | the Python `str` operations the code relies on: `strip()`, `splitlines()`, `"\n".join`, `startswith`, `in` |
| `friendly_error.dfy` | `FriendlyError` | `_make_friendly_error`, the error translator |
| `workspace.dfy` | `Workspace` | `Path(name).name`, `_write_uploaded_files` and the run directory (a `class` whose `files` map is updated in place) |
| `output_protocol.dfy` | `OutputProtocol` | the line-tag parsing loops of `run_code` |
| `sandbox.dfy` | `Sandbox` | `run_code` as a whole, with its timeout and failure results |
| `registry.dfy` | `Registry` | the process registry as a state machine, and as a `class` whose methods are `run_local`, `stop_local` and the watcher's locked block |
| `execute.dfy` | `Execute` | `execute_code` in backend/routers/execute.py |

The environment enters the model as parameters:

* What the sandboxed child does is a function `child: Files -> ProcessOutcome`
  of the directory it is given. It either exits with its captured stdout and
  stderr, or times out, or `subprocess.run` raises.
* What `Popen` does is a function `spawn: Files -> LaunchOutcome` of the run
  directory it is started in: a new handle, or an exception text. `run_local`
  applies it to the directory it has just written, which holds `kata.py` with the
  learner's code and the uploads.
* The text of the exception a failing upload write raises is a `string`.

Running processes are abstract `nat` handles. The registry keeps the set of
handles still `alive` and the set ever `launched`.

Upload writes. `Path(filename).name` is modelled exactly as `PurePosixPath`
computes it: the last component that is neither empty nor `.`. So
`../../evil.txt` becomes `evil.txt`, and a name made only of separators and
dots-as-components becomes `""` and is skipped. Two base names make
`write_bytes` raise, `..` (a directory) and a name holding a NUL character.
`run_code` catches that: its result is `"Execution failed: "` followed by the
exception text. `run_local` writes the uploads before its `try`, so the
exception leaves `run_local`, and `execute_code` with it. The model gives no
reply (`None`) in that case; the registry has already been stopped. A failing
upload write is raised before `run_local`'s `try` (sandbox.py:117-123), so it
is never reported as `Failed to launch`.

`run_local` takes the registry lock twice: once inside `stop_local` and once
to install the new process. The model treats the whole call as one step.
`Registry.OverlappingLaunchesOrphanAProcess` shows what two interleaved calls
would do: the first process keeps running outside the slot. The handler calls
`run_local` synchronously, so within this code the calls do not overlap.

## Model

| member | source | states |
|---|---|---|
| Strings.Strip | backend/executor/sandbox.py:61-62 | `str.strip()`; what it leaves is stated by `StripIsSlice`, `StripEnds` and `StripKeepsTrimmed` |
| Strings.StripIsSlice | backend/executor/sandbox.py:61-62 | the stripped text is a slice of the input with only whitespace cut off on either side |
| Strings.StripEnds | backend/executor/sandbox.py:61-62 | the stripped text neither starts nor ends with whitespace |
| Strings.StripKeepsTrimmed | backend/executor/sandbox.py:61-62 | text that neither starts nor ends with whitespace is left as it is |
| Strings.SplitLines | backend/executor/sandbox.py:68 | no line contains a line break, and the empty text is the only one that has no lines |
| Strings.JoinLines | backend/executor/sandbox.py:85 | `"\n".join`; `SplitJoin` states that `splitlines` undoes it |
| Strings.SplitJoin | backend/executor/sandbox.py:85 | splitting lines joined with `"\n"` gives those lines back, when none holds a break and the last is not empty |
| Strings.Contains | backend/routers/execute.py:33 | Python's substring test `in`; `ContainsIff` characterises it by an occurrence index |
| Strings.StartsWith | backend/executor/sandbox.py:69-78 | `str.startswith`: the text begins with the prefix; the parsing lemmas `LastTaggedNone`, `LastTaggedSome`, `ImageIsLastImageLine` and `ErrorIsLastReportedError` are stated with it |
| Strings.ContainsIff | backend/routers/execute.py:33 | the substring test holds exactly when the pattern occurs at some index |
| FriendlyError.Classify | backend/executor/sandbox.py:195-207 | the category the if-chain picks; `ClassifyIsFirstMatch` proves it is the first-match-wins scan of the ordered table |
| FriendlyError.MakeFriendlyError | backend/executor/sandbox.py:193-208 | every translated message contains the raw message in full and is strictly longer than it |
| FriendlyError.CategoryRoundTrip | backend/executor/sandbox.py:193-208 | exactly one category is applied, and it can be read back from the message's first character |
| FriendlyError.FirstMatch | backend/executor/sandbox.py:195-208 | the first-match scan yields the fallback or the category of one of the table's rules |
| FriendlyError.ClassifyIsFirstMatch | backend/executor/sandbox.py:195-208 | the translator's if-chain is the first-match-wins scan of the ordered table ImportError/ModuleNotFoundError, SyntaxError, NameError, TypeError, AttributeError |
| FriendlyError.ImportErrorNamesAllowedImports | backend/executor/sandbox.py:195-199 | a message naming ImportError or ModuleNotFoundError says that only `import cv2` and `import numpy as np` are allowed |
| FriendlyError.SyntaxErrorWinsOverLaterCategories | backend/executor/sandbox.py:200-201 | a syntax error gets the syntax text, with no hint appended, whatever later categories the message also names |
| Workspace.BaseName | backend/executor/sandbox.py:29 | `Path(filename).name`; `BaseNameFacts`, `BaseNameEmptyIff` and `BaseNameIsLastComponent` together fix it as the last component that is neither empty nor `.` |
| Workspace.FinalSegmentFacts | backend/executor/sandbox.py:29 | the final segment is a suffix of the name, holds no `/`, and is preceded by a `/` when it is not the whole name |
| Workspace.BaseNameFacts | backend/executor/sandbox.py:29 | a base name never holds `/` and is never `.` |
| Workspace.BaseNameEmptyIff | backend/executor/sandbox.py:29-31 | the base name is empty, so the upload is skipped, exactly when the name is made only of empty and `.` components |
| Workspace.BaseNameIsLastComponent | backend/executor/sandbox.py:29 | a non-empty base name is a component of the name after which only empty and `.` components follow |
| Workspace.BaseNameOfPlainName | backend/executor/sandbox.py:29 | a name without `/` other than `.` is its own base name |
| Workspace.BaseNameIdempotent | backend/executor/sandbox.py:29 | taking the base name twice changes nothing |
| Workspace.FinalSegmentAfterSeparator | backend/executor/sandbox.py:29 | the final segment of `a/b`, where `b` has no `/`, is `b` |
| Workspace.TraversalIsStripped | backend/executor/sandbox.py:29 | `../../evil.txt` is stored as `evil.txt` |
| Workspace.WriteFails | backend/executor/sandbox.py:32 | the base names whose `write_bytes` raises: `..` names the parent directory (IsADirectoryError) and a NUL character is refused (ValueError); `FirstFailure` and `UploadsWritable` are stated with it |
| Workspace.UploadsOf | backend/executor/sandbox.py:26-27 | `None` and an empty list both mean no uploads; `Workspace.Directory.WriteUploadedFiles` and `StoredUntouched` state that then nothing is written |
| Workspace.FirstFailure | backend/executor/sandbox.py:28-32 | all uploads before the index are writable, and the upload at it (if any) makes the write raise |
| Workspace.Stored | backend/executor/sandbox.py:28-32 | the directory after the upload loop; `StoredKeys`, `StoredLastWins` and `StoredUntouched` state its entries |
| Workspace.StoredKeys | backend/executor/sandbox.py:28-32 | writing adds exactly the uploads' non-empty base names, none with a `/`, and keeps every existing entry name |
| Workspace.StoredLastWins | backend/executor/sandbox.py:28-32 | the entry under a base name holds the bytes of the last upload with that base name |
| Workspace.StoredUntouched | backend/executor/sandbox.py:26-32 | a name no upload is stored under, the empty name included, is present afterwards exactly when it was before, with the same content |
| Workspace.LastNamedExists | backend/executor/sandbox.py:28-32 | when some upload has a given base name, one of them is the last |
| Workspace.Directory.constructor | backend/executor/sandbox.py:47 | a new run directory is empty |
| Workspace.Directory.WriteText | backend/executor/sandbox.py:49-50 | the source is written as text under its name, over any earlier entry |
| Workspace.Directory.WriteUploadedFiles | backend/executor/sandbox.py:24-32 | the loop succeeds exactly when no upload's write raises, and the directory becomes the specification `Stored` of the uploads written before any failure (none for `None` or an empty list) |
| Workspace.Materialise | backend/executor/sandbox.py:47-51 | a fresh directory holds `kata.py` and then the uploads over it, and success means every upload was written |
| Workspace.Materialised | backend/executor/sandbox.py:49-51 | the directory a run sees, `kata.py` first and the uploads over it; `SourceFileKept` states when the code survives |
| Workspace.SourceFileKept | backend/executor/sandbox.py:49-51 | `kata.py` is always present, and holds the learner's code exactly when no written upload has that base name |
| OutputProtocol.ScanStdout | backend/executor/sandbox.py:64-74 | the stdout loop's image is the last `IMAGE:` payload and its log lines are the per-line stdout logs |
| OutputProtocol.ScanStderr | backend/executor/sandbox.py:76-81 | the stderr loop's error translates the last `EXEC_ERROR:` remainder, and it appends the other lines to the logs |
| OutputProtocol.ParseStreams | backend/executor/sandbox.py:61-87 | the parsing code yields the record `Parse` of the two streams |
| OutputProtocol.LinesOf | backend/executor/sandbox.py:61-62 | the lines read from a stream, stripped and then split by the `splitlines()` calls at sandbox.py:68 and 77; `OutputProtocol.ParseStreams` is proved against it and `ImageLineIsOneLine` states what one trimmed line gives |
| OutputProtocol.StdoutLog | backend/executor/sandbox.py:69-74 | a stdout line contributes at most one log line, and none exactly when it is an `IMAGE:` line |
| OutputProtocol.ErrorText | backend/executor/sandbox.py:66-79 | the `error = ""` default, or the translation of the reported error; `ErrorTextEmptyIff` states it |
| OutputProtocol.ErrorTextEmptyIff | backend/executor/sandbox.py:66-79 | the error is empty exactly when no error was reported, and otherwise it contains the reported text in full |
| OutputProtocol.LastTagged | backend/executor/sandbox.py:64-70 | the payload of the last line with a tag; `LastTaggedNone` and `LastTaggedSome` state what it finds |
| OutputProtocol.StdoutLogs | backend/executor/sandbox.py:68-74 | the stdout log lines; `StdoutLogsAppend` and `StdoutLogsFromTextLines` state their order and origin |
| OutputProtocol.StderrLogs | backend/executor/sandbox.py:76-81 | the stderr log lines; `StderrLogsAppend` states their order |
| OutputProtocol.Parse | backend/executor/sandbox.py:61-87 | the record built after a normal exit; `ImageIsLastImageLine`, `ErrorIsLastReportedError` and `SingleImageLine` state its fields |
| OutputProtocol.LastTaggedNone | backend/executor/sandbox.py:64-70 | no image is found exactly when no line starts with the tag |
| OutputProtocol.LastTaggedSome | backend/executor/sandbox.py:68-70 | what is found is the remainder of the last tagged line |
| OutputProtocol.ImageIsLastImageLine | backend/executor/sandbox.py:61-70 | the image is none exactly when no stripped stdout line starts with `IMAGE:`, and otherwise it is the last such line's payload |
| OutputProtocol.ErrorIsLastReportedError | backend/executor/sandbox.py:76-79 | the error is empty exactly when no stderr line starts with `EXEC_ERROR:`, and otherwise it translates the last such line's remainder |
| OutputProtocol.StdoutLogsAppend | backend/executor/sandbox.py:68-74 | the logs of two runs of stdout lines are the logs of each, in order |
| OutputProtocol.StderrLogsAppend | backend/executor/sandbox.py:77-81 | the logs of two runs of stderr lines are the logs of each, in order |
| OutputProtocol.StdoutLogsFromTextLines | backend/executor/sandbox.py:68-74 | every stdout log line comes from a line that is not an `IMAGE:` line |
| OutputProtocol.ImageLineIsOneLine | backend/executor/sandbox.py:61-69 | one `IMAGE:` line whose payload holds no break and does not end in whitespace reads back as exactly that line |
| OutputProtocol.SingleImageLine | backend/executor/sandbox.py:61-87 | one `IMAGE:` line on stdout, with stderr empty, gives that payload, no logs and no error |
| Sandbox.TimeoutResult | backend/executor/sandbox.py:89-95 | the timeout record; `TimeoutMessageText` and `OnlyNormalExitProducesOutput` state its fields |
| Sandbox.FailureResult | backend/executor/sandbox.py:96-101 | the generic failure record; `OnlyNormalExitProducesOutput` states that it has no image or logs |
| Sandbox.BoundedResult | backend/executor/sandbox.py:46-101 | what `run_code` returns; `SuccessIff`, `OnlyNormalExitProducesOutput` and `BlockedImportExplained` state its properties |
| Sandbox.RunCode | backend/executor/sandbox.py:46-101 | the bounded runner returns `BoundedResult`: the parsed streams after a normal exit, the timeout result, or `"Execution failed: "` and the exception text |
| Sandbox.TimeoutMessage | backend/executor/sandbox.py:93-94 | the timeout f-string, with `TIMEOUT_SECONDS` rendered in decimal; `TimeoutMessageText` states its value |
| Strings.NatToDecimal | backend/executor/sandbox.py:93 | the decimal rendering of a number in an f-string: a non-empty string of digits; `TimeoutMessageText` uses it for `10` |
| Sandbox.TimeoutMessageText | backend/executor/sandbox.py:89-95 | the timeout message names the 10-second deadline |
| Sandbox.OnlyNormalExitProducesOutput | backend/executor/sandbox.py:89-101 | only a child that exited in time yields an image or logs; the timeout and failure results have neither, and they carry a non-empty error |
| Sandbox.SuccessIff | backend/executor/sandbox.py:46-101 | the error is empty exactly when the inputs were written, the child exited in time and no stderr line reported an error |
| Sandbox.BlockedImportExplained | backend/executor/sandbox.py:76-79 | a blocked import reported as the last error on stderr reaches the learner with the allowed-imports hint |
| Registry.StopReplyOf | backend/executor/sandbox.py:182-190 | `stop_local`'s reply; `StopEmptiesSlot` and `StopIdempotent` state when it reports `stopped` |
| Registry.AfterStop | backend/executor/sandbox.py:178-187 | the state after `stop_local`; `StopEmptiesSlot`, `StopIdempotent` and `StopLeavesNothingRunning` state it |
| Registry.Install | backend/executor/sandbox.py:124-130 | `Popen` followed by the registering block; `LaunchReplaces` states the result |
| Registry.AfterLaunch | backend/executor/sandbox.py:115-130 | a successful `run_local`; `LaunchReplaces` and `StaleCleanupKeepsLaterLaunch` state it |
| Registry.AfterCleanup | backend/executor/sandbox.py:135-138 | the watcher's locked block; `StaleCleanupKeepsLaterLaunch` and `RegisteredUntilReplaced` state it |
| Registry.LocalState | backend/executor/sandbox.py:104-172 | the registry after `run_local`; `Registry.ProcessRegistry.RunLocal` is proved against it and `RunKeepsConsistent` covers it |
| Registry.LocalReply | backend/executor/sandbox.py:117-172 | `run_local`'s reply; `Registry.ProcessRegistry.RunLocal` is proved against it |
| Registry.StopEmptiesSlot | backend/executor/sandbox.py:178-190 | stopping empties the slot, and reports `stopped` exactly when the slot held a process that was still running |
| Registry.StopIdempotent | backend/executor/sandbox.py:175-190 | a second stop changes nothing and reports that no process was running |
| Registry.StopLeavesNothingRunning | backend/executor/sandbox.py:182-187 | under the registry invariant, no launched process runs after a stop |
| Registry.LaunchReplaces | backend/executor/sandbox.py:115-130 | after a launch, exactly the new process is registered and running, and the process that was registered before no longer runs |
| Registry.StaleCleanupKeepsLaterLaunch | backend/executor/sandbox.py:133-138 | the watcher of an earlier process does not clear the slot of a later launch |
| Registry.StepKeepsConsistent | backend/executor/sandbox.py:104-190 | every enabled step (launch, failed launch, stop, exit, cleanup) keeps the invariant: only launched processes are registered, and only the registered one runs |
| Registry.RunKeepsConsistent | backend/executor/sandbox.py:104-190 | after any admissible sequence of steps the invariant holds, and at most one launched process runs |
| Registry.RegisteredUntilReplaced | backend/executor/sandbox.py:135-138 | a registered process stays registered through exits and other processes' watchers |
| Registry.OverlappingLaunchesOrphanAProcess | backend/executor/sandbox.py:115-130 | interleaving the stop and install blocks of two calls would leave a running process outside the slot, where a stop cannot reach it |
| Registry.ProcessRegistry.constructor | backend/executor/sandbox.py:20 | the registry starts with the slot empty and no process |
| Registry.ProcessRegistry.StopLocal | backend/executor/sandbox.py:175-190 | `stop_local` performs `AfterStop` and replies `StopReplyOf`: the slot is emptied, and `stopped` holds exactly when the taken process was running; the invariant is kept |
| Registry.ProcessRegistry.RunLocal | backend/executor/sandbox.py:104-172 | `run_local` stops first and writes the run directory; `Popen` is started in exactly that directory, `kata.py` with `code` and the uploads. It then registers the new process and returns the started message, or it returns `"Failed to launch: "` and the exception text; a failing upload write gives no reply; the invariant is kept |
| Registry.ProcessRegistry.Exit | backend/executor/sandbox.py:134 | a process that ends on its own leaves the slot as it was |
| Registry.ProcessRegistry.Cleanup | backend/executor/sandbox.py:133-138 | the watcher clears the slot only when it still holds the watcher's process |
| Execute.ChooseRunner | backend/routers/execute.py:33-36 | the runner the handler calls; `ForegroundExactlyForCamera` states when the foreground one is chosen |
| Execute.ForegroundExactlyForCamera | backend/routers/execute.py:33-36 | the foreground runner is chosen exactly when `cv2.VideoCapture` occurs in the code, and the `local` flag makes no difference |
| Execute.UploadsFor | backend/routers/execute.py:28-30 | the upload list is empty unless an image came with a non-empty file name; then it is that one file and its bytes |
| Execute.NoImageOnlySource | backend/routers/execute.py:28-30 | without a named image, the run directory holds only `kata.py` with the code |
| Execute.ImageStoredUnderBaseName | backend/routers/execute.py:28-30 | a named image whose base name can be written is stored, as its bytes, under that base name |
| Execute.Respond | backend/routers/execute.py:38-42 | the response copies each key the runner set, with the image defaulting to `None` and the logs and error to `""` |
| Execute.DictOf | backend/executor/sandbox.py:83-87 | the dictionary a runner returns with every key set, as both runners build it (also sandbox.py:151-156 and 168-172); `RespondPassesThrough` states that the response carries it unchanged |
| Execute.RespondPassesThrough | backend/routers/execute.py:38-42 | a runner's full record reaches the response unchanged |
| Execute.ExecuteCode | backend/routers/execute.py:28-42 | the handler passes the same code and upload list to the chosen runner and returns its result. The bounded path leaves the registry alone, the foreground path updates it as `run_local` does, with `Popen` started in the directory holding that code and upload list, and the invariant is kept |
| Execute.BoundedOutputOnlyAfterExit | backend/routers/execute.py:33-36 | code without the camera marker goes to the bounded runner whatever the flag says, and it gets an image or logs only from a child that exited in time |

## Left out

- Process handling is abstract: `subprocess.run` and `Popen` themselves, and `terminate`/`wait(timeout=3)`/`kill` in `stop_local`. A stop is modelled as ending the process with no grace period, so the post-timeout claim that the child no longer runs is not stated.
- Filesystem side effects: the deletion loops in `_cleanup` and in `run_local`'s exception handler (sandbox.py:139-147, 159-167). Only their failures are swallowed (`except OSError: pass`). The claim that the bounded workspace is deleted afterwards is therefore not stated.
- Sandbox.BoundedResult: a failure to remove the temporary directory when `run_code` leaves its `with` block (sandbox.py:47) is not modelled. `TemporaryDirectory` does not ignore clean-up errors, so in the source such an error reaches the `except Exception` at sandbox.py:96-101 and the result becomes `"Execution failed: "` with that error's text. This holds after a normal exit and also after a timeout. `BoundedResult` never gives a failure result once the child has exited or timed out.
- Registry.LocalReply: a failing `tempfile.mkdtemp` (sandbox.py:117) is not modelled. It is outside `run_local`'s `try`, so, like a failing upload write, it escapes `run_local` and `execute_code` after the stop. The model has only the upload-write case of that escape.
- Windows path rules: `BaseName` follows POSIX paths, where `/` is the only separator; a backend on Windows would also split at `\` and drop a drive, which is not modelled.
- A failure after `Popen` succeeded, inside the same `try`, such as `threading.Thread(...).start()` raising (sandbox.py:149). The source then replies `Failed to launch` while the new process stays registered and running (sandbox.py:129-130, 158-172). The model's `SpawnFailed` always means no process was started, so the slot is left empty.
- Write failures other than the `..` and NUL names, such as a name that is too long for the file system, or source text that cannot be encoded as UTF-8.
- Threads and the registry lock. Each locked block is one step, and `run_local` as a whole is one step (see above).
- The line translation and decoding that `text=True` applies to the captured streams; the model starts from the decoded text.
- The entry-point wrapper `sandbox-runner.py` and the cv2 library are not part of this model; the child's behaviour is a parameter.
- FastAPI routing, form parsing, `UploadFile.read` and the `ExecuteResult` schema class. The stop route (backend/routers/execute.py:45-48) only returns `stop_local()`'s reply, which `Registry.ProcessRegistry.StopLocal` models.
- `test_opencv.py` and `reproduce_issue.py`: ad-hoc scripts with no logic of the orchestrator.
- Registry.ProcessRegistry.RunLocal: requires that a handle `spawn` returns for the run directory is new, and so does Execute.ExecuteCode. This stands for `Popen` always starting a new process; it is not a demand the source makes of its callers.
