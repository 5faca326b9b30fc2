/** The `POST /api/execute` handler (backend/routers/execute.py): it builds
    the upload list from the optional image, picks a runner by looking for
    camera use in the code, and returns the runner's record. */
module Execute {
  import opened Types
  import opened Strings
  import opened Workspace
  import opened OutputProtocol
  import opened Sandbox
  import opened Registry

  /** The optional `image` form field: the client's file name, if it sent
      one, and the bytes `read()` returns. */
  datatype UploadFile = UploadFile(filename: Option<string>, content: seq<byte>)

  /** Code that mentions this is run in the foreground runner. */
  const CameraMarker := "cv2.VideoCapture"

  datatype Runner = Foreground | Bounded

  /** The runner for `code`. The `local` form field is accepted and ignored. */
  function ChooseRunner(code: string, local: bool): Runner {
    if Contains(code, CameraMarker) then Foreground else Bounded
  }

  /** The foreground runner is chosen exactly when the marker occurs
      somewhere in the code, whatever `local` says. */
  lemma ForegroundExactlyForCamera(code: string, local: bool)
    ensures ChooseRunner(code, local) == Foreground <==> exists i :: OccursAt(code, CameraMarker, i)
    ensures ChooseRunner(code, local) == ChooseRunner(code, !local)
  {
    ContainsIff(code, CameraMarker);
  }

  /** The upload list: the image alone when it came with a non-empty file
      name, empty otherwise. */
  function UploadsFor(image: Option<UploadFile>): (us: seq<Upload>)
    ensures |us| <= 1
    ensures us != [] <==> image.Some? && image.value.filename.Some? && image.value.filename.value != ""
    ensures us != [] ==> us[0].filename == image.value.filename.value && us[0].content == image.value.content
  {
    if image.Some? && image.value.filename.Some? && image.value.filename.value != "" then
      [Upload(image.value.filename.value, image.value.content)]
    else
      []
  }

  /** Without a named image the run sees the source file and nothing else. */
  lemma NoImageOnlySource(code: string, image: Option<UploadFile>)
    requires image.None? || image.value.filename.None? || image.value.filename.value == ""
    ensures UploadsWritable(Some(UploadsFor(image)))
    ensures Materialised(code, Some(UploadsFor(image))) == map[SourceFile := Text(code)]
  {
    assert UploadsFor(image) == [];
  }

  /** A named image whose base name can be written reaches the run, as its
      bytes, under that base name. */
  lemma ImageStoredUnderBaseName(code: string, image: UploadFile)
    requires image.filename.Some?
    requires BaseName(image.filename.value) != "" && !WriteFails(BaseName(image.filename.value))
    ensures UploadsWritable(Some(UploadsFor(Some(image))))
    ensures Materialised(code, Some(UploadsFor(Some(image))))[BaseName(image.filename.value)]
        == Binary(image.content)
  {
    var us := UploadsFor(Some(image));
    assert us == [Upload(image.filename.value, image.content)];
    assert FirstFailure(us) == 1 by {
      assert us[1..] == [];
    }
    assert Written(Some(us)) == us;
    assert us[..0] == [];
  }

  /** The dictionary a runner returns, by key: `None` for a missing key. */
  datatype RunnerDict = RunnerDict(imageB64: Option<Option<string>>, logs: Option<string>, error: Option<string>)

  /** The dictionary both runners build: every key present. */
  function DictOf(r: ExecResult): RunnerDict {
    RunnerDict(Some(r.image), Some(r.logs), Some(r.error))
  }

  /** The response built from a runner's dictionary: a missing image is
      `None`, missing logs or error are `""`. */
  function Respond(d: RunnerDict): (r: ExecResult)
    ensures d.imageB64.Some? ==> r.image == d.imageB64.value
    ensures d.logs.Some? ==> r.logs == d.logs.value
    ensures d.error.Some? ==> r.error == d.error.value
    ensures d.imageB64.None? ==> r.image == None
    ensures d.logs.None? ==> r.logs == ""
    ensures d.error.None? ==> r.error == ""
  {
    ExecResult(d.imageB64.GetOr(None), d.logs.GetOr(""), d.error.GetOr(""))
  }

  /** The response carries the runner's record unchanged. */
  lemma RespondPassesThrough(r: ExecResult)
    ensures Respond(DictOf(r)) == r
  {
  }

  /** `execute_code(code, local, image)`: `child` is what the sandboxed child
      does, `writeError` the text a failing upload write raises, and `spawn`
      what `Popen` does in the foreground runner, given its run directory. `None` is the failing write
      whose exception `run_local` lets escape. */
  method ExecuteCode(registry: ProcessRegistry, code: string, local: bool, image: Option<UploadFile>,
                     child: Files -> ProcessOutcome, writeError: string, spawn: Files -> LaunchOutcome)
    returns (reply: Option<ExecResult>)
    requires var launch := spawn(Materialised(code, Some(UploadsFor(image))));
      UploadsWritable(Some(UploadsFor(image))) && launch.Spawned? ==> launch.handle !in registry.launched
    modifies registry
    ensures ChooseRunner(code, local) == Bounded ==>
      && reply == Some(BoundedResult(code, Some(UploadsFor(image)), child, writeError))
      && registry.State() == old(registry.State())
    ensures ChooseRunner(code, local) == Foreground ==>
      && reply == LocalReply(UploadsWritable(Some(UploadsFor(image))),
                             spawn(Materialised(code, Some(UploadsFor(image)))))
      && registry.State() == LocalState(old(registry.State()), UploadsWritable(Some(UploadsFor(image))),
                                        spawn(Materialised(code, Some(UploadsFor(image)))))
    ensures Consistent(old(registry.State())) ==> Consistent(registry.State())
  {
    var uploads: seq<Upload> := [];
    if image.Some? && image.value.filename.Some? && image.value.filename.value != "" {
      uploads := uploads + [Upload(image.value.filename.value, image.value.content)];
    }
    assert uploads == UploadsFor(image);
    if Contains(code, CameraMarker) {
      var result := registry.RunLocal(code, Some(uploads), spawn);
      reply := if result.Some? then Some(Respond(DictOf(result.value))) else None;
    } else {
      var result := RunCode(code, Some(uploads), child, writeError);
      reply := Some(Respond(DictOf(result)));
    }
  }

  /** Code without the camera marker takes the bounded path whatever the
      flag says, and it gets an image or logs only from a child that exited
      in time. */
  lemma BoundedOutputOnlyAfterExit(code: string, image: Option<UploadFile>,
                                 child: Files -> ProcessOutcome, writeError: string)
    requires !Contains(code, CameraMarker)
    ensures ChooseRunner(code, false) == Bounded && ChooseRunner(code, true) == Bounded
    ensures var r := BoundedResult(code, Some(UploadsFor(image)), child, writeError);
      (r.image.Some? || r.logs != "") ==> child(Materialised(code, Some(UploadsFor(image)))).Exited?
  {
    OnlyNormalExitProducesOutput(code, Some(UploadsFor(image)), child, writeError);
  }
}
