/** The scratch directory both runners materialise before launching the
    learner's code (backend/executor/sandbox.py, `_write_uploaded_files`
    and the `kata.py` write in `run_code` / `run_local`). The directory is
    a map from entry name to contents. */
module Workspace {
  import opened Types
  import opened Strings

  /** What an entry of the directory holds: the source text, or uploaded bytes. */
  datatype Content = Text(text: string) | Binary(bytes: seq<byte>)

  type Files = map<string, Content>

  /** One uploaded asset: the name the client gave it and its bytes. */
  datatype Upload = Upload(filename: string, content: seq<byte>)

  /** The fixed name the learner's code is written under. */
  const SourceFile := "kata.py"

  // ---------------------------------------------------------------------
  // `Path(filename).name` on a POSIX host

  /** The text after the last `/` of `s`, or all of `s` when it has none.
      (Its properties are in `FinalSegmentFacts`; stating them here would
      make every unfolding of `BaseName` costly.) */
  function FinalSegment(s: string): (seg: string)
    ensures |seg| <= |s|
    decreases |s|
  {
    if s == [] || s[|s| - 1] == '/' then [] else FinalSegment(s[..|s| - 1]) + [s[|s| - 1]]
  }

  /** The final segment is the separator-free tail of `s`. */
  lemma {:induction false} FinalSegmentFacts(s: string)
    ensures FinalSegment(s) == s[|s| - |FinalSegment(s)|..]
    ensures '/' !in FinalSegment(s)
    ensures |FinalSegment(s)| < |s| ==> s[|s| - |FinalSegment(s)| - 1] == '/'
    decreases |s|
  {
    if s != [] && s[|s| - 1] != '/' {
      FinalSegmentFacts(s[..|s| - 1]);
    }
  }

  /** `PurePosixPath(s).name`: pathlib drops empty and `.` components, and the
      name is the last remaining one, or `""` when none remains. */
  function BaseName(s: string): string
    decreases |s|
  {
    var seg := FinalSegment(s);
    if seg != [] && seg != "." then seg
    else if |seg| == |s| then []
    else BaseName(s[..|s| - |seg| - 1])
  }

  /** A base name never holds a separator and is never `.`. */
  lemma {:induction false} BaseNameFacts(s: string)
    ensures '/' !in BaseName(s)
    ensures BaseName(s) != "."
    decreases |s|
  {
    var seg := FinalSegment(s);
    FinalSegmentFacts(s);
    if !(seg != [] && seg != ".") && |seg| != |s| {
      BaseNameFacts(s[..|s| - |seg| - 1]);
    }
  }

  /** `t` has no proper path component: every character is a separator or a
      `.` standing alone between separators. */
  ghost predicate OnlySeparators(t: string) {
    forall k :: 0 <= k < |t| ==> SeparatorAt(t, k)
  }

  /** Position `k` of `t` is a separator or a lone `.` component. */
  ghost predicate SeparatorAt(t: string, k: int)
    requires 0 <= k < |t|
  {
    t[k] == '/' || (t[k] == '.' && (k == 0 || t[k - 1] == '/') && (k + 1 == |t| || t[k + 1] == '/'))
  }

  /** Appending a separator and an empty or `.` component adds no proper component. */
  lemma OnlySeparatorsExtend(t: string, seg: string)
    requires seg == "" || seg == "."
    ensures OnlySeparators(t + "/" + seg) <==> OnlySeparators(t)
  {
    var u := t + "/" + seg;
    assert forall k :: 0 <= k < |t| ==> u[k] == t[k];
    assert u[|t|] == '/';
    if OnlySeparators(u) {
      forall k | 0 <= k < |t|
        ensures SeparatorAt(t, k)
      {
        assert SeparatorAt(u, k);
        assert u[k] == t[k];
        if k > 0 { assert u[k - 1] == t[k - 1]; }
        if k + 1 < |t| { assert u[k + 1] == t[k + 1]; }
      }
    }
    if OnlySeparators(t) {
      forall k | 0 <= k < |u|
        ensures SeparatorAt(u, k)
      {
        if k < |t| {
          assert SeparatorAt(t, k);
          assert u[k] == t[k];
          if k > 0 { assert u[k - 1] == t[k - 1]; }
          if k + 1 < |t| { assert u[k + 1] == t[k + 1]; }
        } else if k == |t| + 1 {
          assert u[k] == '.' && u[k - 1] == '/' && k + 1 == |u|;
        }
      }
    }
  }

  /** The base name is empty exactly when the path has no proper component. */
  lemma {:induction false} BaseNameEmptyIff(s: string)
    ensures BaseName(s) == "" <==> OnlySeparators(s)
    decreases |s|
  {
    var seg := FinalSegment(s);
    FinalSegmentFacts(s);
    var i := |s| - |seg|;
    if seg != [] && seg != "." {
      assert s[i] == seg[0] && seg[0] in seg;
      assert s[i] != '/';
      if seg[0] == '.' {
        assert s[i + 1] == seg[1] && seg[1] in seg;
      }
      assert !SeparatorAt(s, i);
    } else if |seg| == |s| {
      assert s == seg;
    } else {
      var rest := s[..i - 1];
      assert s == rest + "/" + seg;
      OnlySeparatorsExtend(rest, seg);
      BaseNameEmptyIff(rest);
    }
  }

  /** `name` stands in `s` at `i` as a whole component, and only separators
      and `.` components follow it. */
  ghost predicate IsLastComponentAt(s: string, name: string, i: int) {
    && 0 <= i && i + |name| <= |s| && s[i..i + |name|] == name
    && (i == 0 || s[i - 1] == '/')
    && (i + |name| == |s| || s[i + |name|] == '/')
    && OnlySeparators(s[i + |name|..])
  }

  /** A non-empty base name is the last proper component of the path. */
  lemma {:induction false} BaseNameIsLastComponent(s: string)
    requires BaseName(s) != ""
    ensures exists i :: IsLastComponentAt(s, BaseName(s), i)
    decreases |s|
  {
    var name := BaseName(s);
    var seg := FinalSegment(s);
    FinalSegmentFacts(s);
    if seg != [] && seg != "." {
      var i := |s| - |seg|;
      assert s[i..i + |name|] == name;
      assert s[i + |name|..] == "";
      assert IsLastComponentAt(s, name, i);
    } else {
      var rest := s[..|s| - |seg| - 1];
      assert s == rest + "/" + seg;
      BaseNameIsLastComponent(rest);
      var i :| IsLastComponentAt(rest, name, i);
      LastComponentExtend(rest, seg, name, i);
    }
  }

  /** Appending a separator and an empty or `.` component keeps the last component. */
  lemma LastComponentExtend(rest: string, seg: string, name: string, i: int)
    requires seg == "" || seg == "."
    requires IsLastComponentAt(rest, name, i)
    ensures IsLastComponentAt(rest + "/" + seg, name, i)
  {
    var s := rest + "/" + seg;
    assert s[i..i + |name|] == rest[i..i + |name|];
    assert i == 0 || s[i - 1] == rest[i - 1];
    assert i + |name| < |rest| ==> s[i + |name|] == rest[i + |name|];
    assert s[i + |name|..] == rest[i + |name|..] + "/" + seg;
    OnlySeparatorsExtend(rest[i + |name|..], seg);
  }

  /** A name without separators, other than `.`, is its own base name. */
  lemma BaseNameOfPlainName(s: string)
    requires '/' !in s && s != "."
    ensures BaseName(s) == s
  {
    FinalSegmentFacts(s);
  }

  /** Sanitising twice changes nothing more. */
  lemma BaseNameIdempotent(s: string)
    ensures BaseName(BaseName(s)) == BaseName(s)
  {
    BaseNameFacts(s);
    BaseNameOfPlainName(BaseName(s));
  }

  /** A traversal attempt keeps only its final component. */
  lemma TraversalIsStripped()
    ensures BaseName("../../evil.txt") == "evil.txt"
  {
    FinalSegmentAfterSeparator("../..", "evil.txt");
    assert "../../evil.txt" == "../.." + "/" + "evil.txt";
  }

  /** The final segment of `a/b` is `b` when `b` holds no separator. */
  lemma {:induction false} FinalSegmentAfterSeparator(a: string, b: string)
    requires '/' !in b
    ensures FinalSegment(a + "/" + b) == b
    decreases |b|
  {
    var s := a + "/" + b;
    if b != [] {
      assert s[..|s| - 1] == a + "/" + b[..|b| - 1];
      assert b[|b| - 1] in b;
      FinalSegmentAfterSeparator(a, b[..|b| - 1]);
    }
  }

  // ---------------------------------------------------------------------
  // `_write_uploaded_files`

  /** The entry name an upload is written under. */
  function NameOf(u: Upload): string {
    BaseName(u.filename)
  }

  /** Writing an entry of this name raises: `..` names the parent directory
      (IsADirectoryError) and a NUL character is refused by `open` (ValueError). */
  predicate WriteFails(name: string) {
    name == ".." || '\0' in name
  }

  /** `None` and an empty list both mean "no uploads". */
  function UploadsOf(uploads: Option<seq<Upload>>): seq<Upload> {
    match uploads
    case None => []
    case Some(us) => us
  }

  /** Index of the first upload whose write raises, or `|us|` when none does. */
  function FirstFailure(us: seq<Upload>): (k: nat)
    ensures k <= |us|
    ensures forall i :: 0 <= i < k ==> !WriteFails(NameOf(us[i]))
    ensures k < |us| ==> WriteFails(NameOf(us[k]))
    decreases |us|
  {
    if us == [] then 0
    else if WriteFails(NameOf(us[0])) then 0
    else
      var k := 1 + FirstFailure(us[1..]);
      assert forall i :: 1 <= i < |us| ==> us[i] == us[1..][i - 1];
      k
  }

  /** Every upload can be written. */
  predicate UploadsWritable(uploads: Option<seq<Upload>>) {
    FirstFailure(UploadsOf(uploads)) == |UploadsOf(uploads)|
  }

  /** The uploads written before a write raises (all of them when none does). */
  function Written(uploads: Option<seq<Upload>>): seq<Upload> {
    UploadsOf(uploads)[..FirstFailure(UploadsOf(uploads))]
  }

  /** The directory after writing `us` in order into `files`: nameless
      uploads are skipped and a later upload overwrites an earlier one. */
  function Stored(files: Files, us: seq<Upload>): Files
    decreases |us|
  {
    if us == [] then files
    else
      var before := Stored(files, us[..|us| - 1]);
      var u := us[|us| - 1];
      if NameOf(u) == "" then before else before[NameOf(u) := Binary(u.content)]
  }

  /** The non-empty names the uploads are stored under. */
  ghost function NamesOf(us: seq<Upload>): set<string> {
    set i | 0 <= i < |us| && NameOf(us[i]) != "" :: NameOf(us[i])
  }

  /** Writing adds exactly the uploads' non-empty base names, none of which
      holds a directory separator. */
  lemma {:induction false} StoredKeys(files: Files, us: seq<Upload>)
    ensures Stored(files, us).Keys == files.Keys + NamesOf(us)
    ensures forall k :: k in NamesOf(us) ==> k != "" && '/' !in k
    decreases |us|
  {
    if us != [] {
      var init := us[..|us| - 1];
      StoredKeys(files, init);
      var last := NameOf(us[|us| - 1]);
      assert forall i :: 0 <= i < |init| ==> init[i] == us[i];
      forall i | 0 <= i < |us| {
        BaseNameFacts(us[i].filename);
      }
      if last == "" {
        assert NamesOf(us) == NamesOf(init);
      } else {
        assert NamesOf(us) == NamesOf(init) + {last};
      }
    }
  }

  /** `j` is the last upload stored under the name `k`. */
  ghost predicate IsLastNamed(us: seq<Upload>, j: int, k: string) {
    0 <= j < |us| && NameOf(us[j]) == k && forall m :: j < m < |us| ==> NameOf(us[m]) != k
  }

  /** Last upload wins: an entry holds the bytes of the last upload of its name. */
  lemma {:induction false} StoredLastWins(files: Files, us: seq<Upload>, j: int)
    requires 0 <= j < |us| && NameOf(us[j]) != ""
    requires IsLastNamed(us, j, NameOf(us[j]))
    ensures NameOf(us[j]) in Stored(files, us)
    ensures Stored(files, us)[NameOf(us[j])] == Binary(us[j].content)
    decreases |us|
  {
    if j < |us| - 1 {
      var init := us[..|us| - 1];
      assert init[j] == us[j];
      assert forall m :: j < m < |init| ==> init[m] == us[m];
      StoredLastWins(files, init, j);
    }
  }

  /** An entry no upload is stored under is left as it was. */
  lemma {:induction false} StoredUntouched(files: Files, us: seq<Upload>, k: string)
    requires k == "" || forall i :: 0 <= i < |us| ==> NameOf(us[i]) != k
    ensures k in Stored(files, us) <==> k in files
    ensures k in files ==> Stored(files, us)[k] == files[k]
    decreases |us|
  {
    if us != [] {
      var init := us[..|us| - 1];
      assert forall i :: 0 <= i < |init| ==> init[i] == us[i];
      StoredUntouched(files, init, k);
    }
  }

  /** When some upload has the name `k`, one of them is the last. */
  lemma {:induction false} LastNamedExists(us: seq<Upload>, i: int, k: string)
    requires 0 <= i < |us| && NameOf(us[i]) == k
    ensures exists j :: IsLastNamed(us, j, k)
    decreases |us| - i
  {
    if !IsLastNamed(us, i, k) {
      var m :| i < m < |us| && NameOf(us[m]) == k;
      LastNamedExists(us, m, k);
    }
  }

  /** Writing one more upload: skipped when nameless, stored otherwise. */
  lemma StoredStep(files: Files, us: seq<Upload>, i: int)
    requires 0 <= i < |us|
    ensures Stored(files, us[..i + 1]) == (if NameOf(us[i]) == "" then Stored(files, us[..i])
                                          else Stored(files, us[..i])[NameOf(us[i]) := Binary(us[i].content)])
  {
    assert us[..i + 1][..i] == us[..i];
  }

  // ---------------------------------------------------------------------
  // The directory itself

  /** The scratch directory a run writes into. */
  class Directory {
    var files: Files

    constructor ()
      ensures files == map[]
    {
      files := map[];
    }

    /** `(run_dir / name).write_text(text)`. */
    method WriteText(name: string, text: string)
      modifies this
      ensures files == old(files)[name := Text(text)]
    {
      files := files[name := Text(text)];
    }

    /** `_write_uploaded_files(run_dir, uploads)`. Returns false when a write
        raised; the uploads before it have been written and none after it. */
    method WriteUploadedFiles(uploads: Option<seq<Upload>>) returns (ok: bool)
      modifies this
      ensures ok <==> UploadsWritable(uploads)
      ensures files == Stored(old(files), Written(uploads))
    {
      if uploads.None? || uploads.value == [] {
        return true;
      }
      var us := uploads.value;
      var i := 0;
      while i < |us|
        invariant 0 <= i <= FirstFailure(us)
        invariant files == Stored(old(files), us[..i])
      {
        var name := BaseName(us[i].filename);
        StoredStep(old(files), us, i);
        if name == "" {
          i := i + 1;
          continue;
        }
        if WriteFails(name) {
          assert i == FirstFailure(us);
          return false;
        }
        files := files[name := Binary(us[i].content)];
        i := i + 1;
      }
      assert i == FirstFailure(us) == |us|;
      assert us[..i] == us;
      return true;
    }
  }

  /** The directory a run sees: the source file, then the uploads over it. */
  function Materialised(code: string, uploads: Option<seq<Upload>>): Files {
    Stored(map[SourceFile := Text(code)], Written(uploads))
  }

  /** Writes the source and the uploads into a fresh directory, as both
      runners do before launching. `ok` is false when an upload write raised. */
  method Materialise(code: string, uploads: Option<seq<Upload>>) returns (dir: Directory, ok: bool)
    ensures fresh(dir)
    ensures ok <==> UploadsWritable(uploads)
    ensures dir.files == Materialised(code, uploads)
  {
    dir := new Directory();
    dir.WriteText(SourceFile, code);
    ok := dir.WriteUploadedFiles(uploads);
  }

  /** The code handed to the interpreter is the learner's, unless an upload
      whose base name is `kata.py` was written over it. */
  lemma SourceFileKept(code: string, uploads: Option<seq<Upload>>)
    ensures SourceFile in Materialised(code, uploads)
    ensures Materialised(code, uploads)[SourceFile] == Text(code)
        <==> forall i :: 0 <= i < |Written(uploads)| ==> NameOf(Written(uploads)[i]) != SourceFile
  {
    var us := Written(uploads);
    var start := map[SourceFile := Text(code)];
    if i :| 0 <= i < |us| && NameOf(us[i]) == SourceFile {
      LastNamedExists(us, i, SourceFile);
      var j :| IsLastNamed(us, j, SourceFile);
      StoredLastWins(start, us, j);
    } else {
      StoredUntouched(start, us, SourceFile);
    }
  }
}
