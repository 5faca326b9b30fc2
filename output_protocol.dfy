/** The line-tag protocol the bounded runner reads back from the entry-point
    wrapper (backend/executor/sandbox.py, `run_code`): on stdout `IMAGE:`
    carries the image, `INFO:` and untagged lines are logs; on stderr
    `EXEC_ERROR:` carries a fatal error and anything else is a log line. */
module OutputProtocol {
  import opened Types
  import opened Strings
  import FriendlyError

  const ImageTag := "IMAGE:"
  const InfoTag := "INFO:"
  const ErrorTag := "EXEC_ERROR:"

  /** The `{image_b64, logs, error}` record both runners return. */
  datatype ExecResult = ExecResult(image: Option<string>, logs: string, error: string)

  /** The remainder, after `tag`, of the last line that starts with `tag`. */
  function LastTagged(lines: seq<string>, tag: string): Option<string>
    decreases |lines|
  {
    if lines == [] then None
    else
      var line := lines[|lines| - 1];
      if StartsWith(line, tag) then Some(line[|tag|..]) else LastTagged(lines[..|lines| - 1], tag)
  }

  /** Line `i` is the last of `lines` that starts with `tag`. */
  ghost predicate IsLastTagged(lines: seq<string>, tag: string, i: int) {
    0 <= i < |lines| && StartsWith(lines[i], tag)
    && forall j :: i < j < |lines| ==> !StartsWith(lines[j], tag)
  }

  /** No line carries the tag exactly when nothing is found. */
  lemma {:induction false} LastTaggedNone(lines: seq<string>, tag: string)
    ensures LastTagged(lines, tag) == None <==> forall i :: 0 <= i < |lines| ==> !StartsWith(lines[i], tag)
    decreases |lines|
  {
    if lines != [] {
      var init := lines[..|lines| - 1];
      LastTaggedNone(init, tag);
      assert forall i :: 0 <= i < |init| ==> init[i] == lines[i];
    }
  }

  /** What is found is the remainder of the last tagged line, and of no other. */
  lemma {:induction false} LastTaggedSome(lines: seq<string>, tag: string, i: int)
    requires IsLastTagged(lines, tag, i)
    ensures LastTagged(lines, tag) == Some(lines[i][|tag|..])
    decreases |lines|
  {
    if i < |lines| - 1 {
      var init := lines[..|lines| - 1];
      assert init[i] == lines[i];
      assert forall j :: i < j < |init| ==> init[j] == lines[j];
      LastTaggedSome(init, tag, i);
    }
  }

  /** The log line a stdout line contributes: none for an image line, the
      remainder for an `INFO:` line, the line itself otherwise. */
  function StdoutLog(line: string): (logs: seq<string>)
    ensures |logs| <= 1
    ensures logs == [] <==> StartsWith(line, ImageTag)
  {
    if StartsWith(line, ImageTag) then []
    else if StartsWith(line, InfoTag) then [line[|InfoTag|..]]
    else [line]
  }

  /** The log lines of all stdout lines, in order. */
  function StdoutLogs(lines: seq<string>): seq<string>
    decreases |lines|
  {
    if lines == [] then [] else StdoutLogs(lines[..|lines| - 1]) + StdoutLog(lines[|lines| - 1])
  }

  /** The log lines of stderr: every line that does not report an error. */
  function StderrLogs(lines: seq<string>): seq<string>
    decreases |lines|
  {
    if lines == [] then []
    else
      var line := lines[|lines| - 1];
      StderrLogs(lines[..|lines| - 1]) + (if StartsWith(line, ErrorTag) then [] else [line])
  }

  /** The error field: the translation of the last reported error, or `""`. */
  function ErrorText(reported: Option<string>): string {
    match reported
    case None => ""
    case Some(raw) => FriendlyError.MakeFriendlyError(raw)
  }

  /** The error field is empty exactly when no error was reported; a
      reported error's text is kept in it in full. */
  lemma ErrorTextEmptyIff(reported: Option<string>)
    ensures ErrorText(reported) == "" <==> reported.None?
    ensures reported.Some? ==> Contains(ErrorText(reported), reported.value)
  {
  }

  /** The lines `run_code` reads from a captured stream: stripped, then split. */
  function LinesOf(stream: string): seq<string> {
    SplitLines(Strip(stream))
  }

  /** The record `run_code` builds once the child has exited. */
  function Parse(stdout: string, stderr: string): ExecResult {
    var out := LinesOf(stdout);
    var err := LinesOf(stderr);
    ExecResult(LastTagged(out, ImageTag), JoinLines(StdoutLogs(out) + StderrLogs(err)),
               ErrorText(LastTagged(err, ErrorTag)))
  }

  /** The parsing loops of `run_code`. */
  method ParseStreams(stdout: string, stderr: string) returns (r: ExecResult)
    ensures r == Parse(stdout, stderr)
  {
    var out := Strip(stdout);
    var err := Strip(stderr);
    assert SplitLines(out) == LinesOf(stdout) && SplitLines(err) == LinesOf(stderr);
    var image, logLines := ScanStdout(SplitLines(out));
    var error := "";
    if err != "" {
      error, logLines := ScanStderr(SplitLines(err), logLines);
    } else {
      assert SplitLines(err) == [];
      assert logLines == logLines + StderrLogs([]);
    }
    r := ExecResult(image, JoinLines(logLines), error);
  }

  /** Extending the lines read so far by one: the recursive definitions
      look at that line last. */
  lemma PrefixStep(lines: seq<string>, i: int, tag: string)
    requires 0 <= i < |lines|
    ensures LastTagged(lines[..i + 1], tag)
      == if StartsWith(lines[i], tag) then Some(lines[i][|tag|..]) else LastTagged(lines[..i], tag)
    ensures StdoutLogs(lines[..i + 1]) == StdoutLogs(lines[..i]) + StdoutLog(lines[i])
    ensures StderrLogs(lines[..i + 1]) == StderrLogs(lines[..i]) + (if StartsWith(lines[i], ErrorTag) then [] else [lines[i]])
  {
    assert lines[..i + 1][..i] == lines[..i];
  }

  /** The loop over the stdout lines: the last image line sets the image,
      the other lines are logged. */
  method ScanStdout(lines: seq<string>) returns (image: Option<string>, logLines: seq<string>)
    ensures image == LastTagged(lines, ImageTag)
    ensures logLines == StdoutLogs(lines)
  {
    image, logLines := None, [];
    var i := 0;
    while i < |lines|
      invariant 0 <= i <= |lines|
      invariant image == LastTagged(lines[..i], ImageTag)
      invariant logLines == StdoutLogs(lines[..i])
    {
      var line := lines[i];
      PrefixStep(lines, i, ImageTag);
      if StartsWith(line, ImageTag) {
        image := Some(line[|ImageTag|..]);
      } else if StartsWith(line, InfoTag) {
        logLines := logLines + [line[|InfoTag|..]];
      } else {
        logLines := logLines + [line];
      }
      i := i + 1;
    }
    assert lines[..i] == lines;
  }

  /** One step of the stderr loop, stated on the loop's own variables. */
  lemma StderrStep(lines: seq<string>, j: int, logsBefore: seq<string>)
    requires 0 <= j < |lines|
    ensures StartsWith(lines[j], ErrorTag) ==>
      && ErrorText(LastTagged(lines[..j + 1], ErrorTag)) == FriendlyError.MakeFriendlyError(lines[j][|ErrorTag|..])
      && logsBefore + StderrLogs(lines[..j + 1]) == logsBefore + StderrLogs(lines[..j])
    ensures !StartsWith(lines[j], ErrorTag) ==>
      && ErrorText(LastTagged(lines[..j + 1], ErrorTag)) == ErrorText(LastTagged(lines[..j], ErrorTag))
      && logsBefore + StderrLogs(lines[..j + 1]) == (logsBefore + StderrLogs(lines[..j])) + [lines[j]]
  {
    PrefixStep(lines, j, ErrorTag);
    if !StartsWith(lines[j], ErrorTag) {
      assert (logsBefore + StderrLogs(lines[..j])) + [lines[j]] == logsBefore + (StderrLogs(lines[..j]) + [lines[j]]);
    }
  }

  /** The loop over the stderr lines: the last error line sets the error,
      the other lines are appended to the logs gathered so far. */
  method ScanStderr(lines: seq<string>, logsBefore: seq<string>) returns (error: string, logLines: seq<string>)
    ensures error == ErrorText(LastTagged(lines, ErrorTag))
    ensures logLines == logsBefore + StderrLogs(lines)
  {
    error, logLines := "", logsBefore;
    var j := 0;
    while j < |lines|
      invariant 0 <= j <= |lines|
      invariant error == ErrorText(LastTagged(lines[..j], ErrorTag))
      invariant logLines == logsBefore + StderrLogs(lines[..j])
    {
      var line := lines[j];
      StderrStep(lines, j, logsBefore);
      if StartsWith(line, ErrorTag) {
        error := FriendlyError.MakeFriendlyError(line[|ErrorTag|..]);
      } else {
        logLines := logLines + [line];
      }
      j := j + 1;
    }
    assert lines[..j] == lines;
  }

  /** The image is the payload of the last `IMAGE:` line of the stripped
      stdout, and there is none exactly when no line is so tagged. */
  lemma ImageIsLastImageLine(stdout: string, stderr: string)
    ensures Parse(stdout, stderr).image == None
        <==> forall i :: 0 <= i < |LinesOf(stdout)| ==> !StartsWith(LinesOf(stdout)[i], ImageTag)
    ensures forall i :: IsLastTagged(LinesOf(stdout), ImageTag, i) ==>
        Parse(stdout, stderr).image == Some(LinesOf(stdout)[i][|ImageTag|..])
  {
    var out := LinesOf(stdout);
    assert Parse(stdout, stderr).image == LastTagged(out, ImageTag);
    LastTaggedNone(out, ImageTag);
    forall i | IsLastTagged(out, ImageTag, i)
      ensures LastTagged(out, ImageTag) == Some(out[i][|ImageTag|..])
    {
      LastTaggedSome(out, ImageTag, i);
    }
  }

  /** The error is empty exactly when no stderr line starts with
      `EXEC_ERROR:`; otherwise it translates the last such line's remainder. */
  lemma ErrorIsLastReportedError(stdout: string, stderr: string)
    ensures Parse(stdout, stderr).error == ""
        <==> forall i :: 0 <= i < |LinesOf(stderr)| ==> !StartsWith(LinesOf(stderr)[i], ErrorTag)
    ensures forall i :: IsLastTagged(LinesOf(stderr), ErrorTag, i) ==>
        Parse(stdout, stderr).error == FriendlyError.MakeFriendlyError(LinesOf(stderr)[i][|ErrorTag|..])
  {
    var err := LinesOf(stderr);
    var reported := LastTagged(err, ErrorTag);
    assert Parse(stdout, stderr).error == ErrorText(reported);
    assert ErrorText(reported) == "" <==> reported == None;
    LastTaggedNone(err, ErrorTag);
    forall i | IsLastTagged(err, ErrorTag, i)
      ensures reported == Some(err[i][|ErrorTag|..])
    {
      LastTaggedSome(err, ErrorTag, i);
    }
  }

  /** The stdout logs are the per-line contributions concatenated in order:
      the logs of two runs of lines are the logs of each, one after the other. */
  lemma {:induction false} StdoutLogsAppend(a: seq<string>, b: seq<string>)
    ensures StdoutLogs(a + b) == StdoutLogs(a) + StdoutLogs(b)
    decreases |b|
  {
    if b == [] {
      assert a + b == a;
    } else {
      var init := b[..|b| - 1];
      assert (a + b)[..|a + b| - 1] == a + init;
      assert (a + b)[|a + b| - 1] == b[|b| - 1];
      StdoutLogsAppend(a, init);
    }
  }

  /** The stderr logs, likewise, are the untagged lines in order. */
  lemma {:induction false} StderrLogsAppend(a: seq<string>, b: seq<string>)
    ensures StderrLogs(a + b) == StderrLogs(a) + StderrLogs(b)
    decreases |b|
  {
    if b == [] {
      assert a + b == a;
    } else {
      var init := b[..|b| - 1];
      assert (a + b)[..|a + b| - 1] == a + init;
      assert (a + b)[|a + b| - 1] == b[|b| - 1];
      StderrLogsAppend(a, init);
    }
  }

  /** Every stdout log line comes from a line that is not an image line:
      either that line with its `INFO:` tag removed or, untagged, the line itself. */
  lemma {:induction false} StdoutLogsFromTextLines(lines: seq<string>)
    ensures forall x :: x in StdoutLogs(lines) ==>
      exists i :: 0 <= i < |lines| && !StartsWith(lines[i], ImageTag) && StdoutLog(lines[i]) == [x]
    decreases |lines|
  {
    if lines != [] {
      var init := lines[..|lines| - 1];
      StdoutLogsFromTextLines(init);
      assert forall i :: 0 <= i < |init| ==> init[i] == lines[i];
    }
  }

  /** A stdout of one image line and nothing on stderr gives exactly that
      image, no logs and no error. */
  lemma SingleImageLine(payload: string)
    requires NoLineBreak(payload)
    requires payload == [] || !IsSpace(payload[|payload| - 1])
    ensures Parse(ImageTag + payload, "") == ExecResult(Some(payload), "", "")
  {
    var line := ImageTag + payload;
    ImageLineIsOneLine(payload);
    assert LinesOf("") == [];
    assert LastTagged([line], ImageTag) == Some(line[|ImageTag|..]);
    assert line[|ImageTag|..] == payload;
    assert StdoutLogs([line]) == StdoutLogs([]) + StdoutLog(line);
  }

  /** An image line with a payload of one line, not ending in whitespace,
      reads back as that single tagged line. */
  lemma ImageLineIsOneLine(payload: string)
    requires NoLineBreak(payload)
    requires payload == [] || !IsSpace(payload[|payload| - 1])
    ensures StartsWith(ImageTag + payload, ImageTag)
    ensures LinesOf(ImageTag + payload) == [ImageTag + payload]
  {
    var line := ImageTag + payload;
    assert line[..|ImageTag|] == ImageTag;
    assert NoLineBreak(line) by {
      forall k | 0 <= k < |line|
        ensures !IsLineBreak(line[k])
      {
        if k < |ImageTag| {
          assert line[k] == ImageTag[k];
        } else {
          assert line[k] == payload[k - |ImageTag|];
        }
      }
    }
    assert line[0] == 'I' && line[|line| - 1] == (if payload == [] then ':' else payload[|payload| - 1]);
    StripKeepsTrimmed(line);
    SplitJoin([line]);
  }
}
