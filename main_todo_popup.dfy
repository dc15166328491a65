/**
 * The to-do popup of the main page: the name shown for an already
 * submitted file, whether there is one, the single picked file with its
 * automatic conversion, the submit and the delete of the submitted file.
 * The delete clears two fields of the `detailTodo` object the parent passed
 * in, in place, so the parent sees the change through its own reference.
 * Upload permission, the extension, the gauge and the assignee summary are
 * the ones of the detail popup.
 */
module MainTodoPopup {
  import opened JsCore
  import opened Records
  import opened DetailTodoPopup
  import MainPage

  // ---------------------------------------------------------------------
  // The submitted file

  /** `hasUploadedFile`: any of four fields is truthy. */
  predicate HasUploadedFile(t: Todo) {
    Truthy(t.uploadedFilePath) || Truthy(t.fileName) || Truthy(t.file_path) || Truthy(t.fileUrl)
  }

  /** The fields `getFileName` looks at, in its order. */
  function NameFields(t: Todo): (fs: seq<Scalar>)
    ensures |fs| == 5
  {
    [t.uploadedFileName, t.fileName, t.file_name, t.uploadedFilePath, t.filePath]
  }

  /** The index of the first truthy value. */
  function FirstTruthy(vs: seq<Scalar>): (r: Option<nat>)
    ensures r.Some? ==> r.value < |vs| && Truthy(vs[r.value])
    ensures r.Some? ==> forall j :: 0 <= j < r.value ==> !Truthy(vs[j])
    ensures r.None? ==> forall j :: 0 <= j < |vs| ==> !Truthy(vs[j])
  {
    if vs == [] then None
    else if Truthy(vs[0]) then Some(0)
    else match FirstTruthy(vs[1..])
      case None => None
      case Some(i) => Some(i + 1)
  }

  const UnknownFile: string := "알 수 없는 파일"

  /** `String(v).split(/[\\/]/).pop()` */
  function PathTail(v: Scalar): (r: string)
    ensures forall i :: 0 <= i < |r| ==> r[i] != '/' && r[i] != '\\'
  {
    LastSegment(ToStr(v), {'/', '\\'})
  }

  /** What `getFileName` returns. */
  function FileNameOf(t: Todo): string {
    match FirstTruthy(NameFields(t))
    case None => UnknownFile
    case Some(i) => PathTail(NameFields(t)[i])
  }

  /** The first truthy value is the one with only falsy values before it. */
  lemma FirstTruthyAt(vs: seq<Scalar>, i: nat)
    requires i < |vs| && Truthy(vs[i])
    requires forall j :: 0 <= j < i ==> !Truthy(vs[j])
    ensures FirstTruthy(vs) == Some(i)
  {
  }

  /** `getFileName()`: the loop over the name fields, returning from the
      first truthy one. */
  method GetFileName(t: Todo) returns (name: string)
    ensures name == FileNameOf(t)
  {
    var fields := NameFields(t);
    var i := 0;
    while i < |fields|
      invariant 0 <= i <= |fields|
      invariant forall j :: 0 <= j < i ==> !Truthy(fields[j])
    {
      if Truthy(fields[i]) {
        FirstTruthyAt(fields, i);
        return PathTail(fields[i]);
      }
      i := i + 1;
    }
    return UnknownFile;
  }

  /** The shown name never holds a path separator. */
  lemma FileNameHasNoSeparator(t: Todo)
    ensures forall i :: 0 <= i < |FileNameOf(t)| ==> FileNameOf(t)[i] != '/' && FileNameOf(t)[i] != '\\'
  {
  }

  /** The last segment of a path ending in a separator and a plain name is
      that name. */
  lemma {:induction false} LastSegmentAfter(dir: string, base: string)
    requires forall i :: 0 <= i < |base| ==> base[i] != '/' && base[i] != '\\'
    ensures LastSegment(dir + "/" + base, {'/', '\\'}) == base
    decreases |base|
  {
    var s := dir + "/" + base;
    if base == [] {
      assert s[|s| - 1] == '/';
    } else {
      var init := base[..|base| - 1];
      assert s[..|s| - 1] == dir + "/" + init;
      assert s[|s| - 1] == base[|base| - 1];
      LastSegmentAfter(dir, init);
      assert init + [base[|base| - 1]] == base;
    }
  }

  /** A stored path shows as the name after its last separator. */
  lemma FileNameOfPath(t: Todo, dir: string, base: string)
    requires !Truthy(t.uploadedFileName) && !Truthy(t.fileName) && !Truthy(t.file_name)
    requires t.uploadedFilePath == Str(dir + "/" + base)
    requires forall i :: 0 <= i < |base| ==> base[i] != '/' && base[i] != '\\'
    ensures FileNameOf(t) == base
  {
    FirstTruthyAt(NameFields(t), 3);
    LastSegmentAfter(dir, base);
  }

  /** A to-do whose file is known only by `file_path` counts as having a
      file, and that file shows as the unknown one. */
  lemma OnlyFilePathIsUnknown(t: Todo)
    requires Truthy(t.file_path)
    requires forall v :: v in NameFields(t) ==> !Truthy(v)
    ensures HasUploadedFile(t)
    ensures FileNameOf(t) == UnknownFile
  {
    assert forall j :: 0 <= j < 5 ==> NameFields(t)[j] in NameFields(t);
  }

  /** What a successful delete does to the to-do object. */
  function Cleared(t: Todo): (r: Todo)
    ensures r.uploadedFilePath == Null && r.fileName == Null
    ensures r.(uploadedFilePath := t.uploadedFilePath, fileName := t.fileName) == t
  {
    t.(uploadedFilePath := Null, fileName := Null)
  }

  /** What a later render computes from the object after a delete: a file
      exactly when `file_path` or `fileUrl` is set, and a name recorded in
      `uploadedFileName` unchanged. The delete itself does not re-render the
      popup, so until something else does, the handler keeps testing the
      flag of the render before it (see `DeleteTwice`). */
  lemma AfterDelete(t: Todo)
    ensures HasUploadedFile(Cleared(t)) <==> Truthy(t.file_path) || Truthy(t.fileUrl)
    ensures Truthy(t.uploadedFileName) ==> FileNameOf(Cleared(t)) == FileNameOf(t)
  {
  }

  /** The `detailTodo` object the parent and the popup share. */
  class TodoObject {
    var todo: Todo

    constructor(t: Todo)
      ensures todo == t
    {
      todo := t;
    }
  }

  /** How `handleFileDelete` ends. */
  datatype DeleteOutcome = NothingToDelete | Cancelled | Failed | Deleted

  /** `handleFileDelete`: an alert when there is no file, nothing when the
      user declines, an error message when the request fails, otherwise
      `uploadedFilePath` and `fileName` become `null` on the shared object.
      `hasUploadedFile` is the flag computed at the popup's last render,
      which the handler's closure holds; the in-place change does not
      re-render, so the flag may no longer describe `obj.todo`. */
  method HandleFileDelete(obj: TodoObject, hasUploadedFile: bool, confirmed: bool, ok: bool)
    returns (outcome: DeleteOutcome)
    modifies obj
    ensures outcome == NothingToDelete <==> !hasUploadedFile
    ensures outcome == Cancelled <==> hasUploadedFile && !confirmed
    ensures outcome == Failed <==> hasUploadedFile && confirmed && !ok
    ensures outcome == Deleted <==> hasUploadedFile && confirmed && ok
    ensures outcome == Deleted ==> obj.todo == Cleared(old(obj.todo))
    ensures outcome != Deleted ==> obj.todo == old(obj.todo)
  {
    if !hasUploadedFile {
      return NothingToDelete;
    }
    if !confirmed {
      return Cancelled;
    }
    if !ok {
      return Failed;
    }
    obj.todo := obj.todo.(uploadedFilePath := Null);
    obj.todo := obj.todo.(fileName := Null);
    return Deleted;
  }

  /** Two confirmed clicks on delete with no render in between: both test
      the first render's flag, so both send the DELETE request, although
      after the first one the object has a file only when `file_path` or
      `fileUrl` is set. */
  method DeleteTwice(t: Todo) returns (first: DeleteOutcome, second: DeleteOutcome, fileLeft: bool)
    requires HasUploadedFile(t)
    ensures first == Deleted && second == Deleted
    ensures fileLeft <==> Truthy(t.file_path) || Truthy(t.fileUrl)
  {
    var obj := new TodoObject(t);
    var rendered := HasUploadedFile(obj.todo);
    first := HandleFileDelete(obj, rendered, true, true);
    second := HandleFileDelete(obj, rendered, true, true);
    assert obj.todo == Cleared(t);
    AfterDelete(t);
    fileLeft := HasUploadedFile(obj.todo);
  }

  // ---------------------------------------------------------------------
  // Conversion

  /** `${file.name.split(".")[0]}_converted.${targetFormat}` */
  function ConvertedName(name: string, target: string): (r: string)
    ensures |r| == |FirstSegment(name, '.')| + 11 + |target|
  {
    FirstSegment(name, '.') + "_converted." + target
  }

  /** A name with one dot keeps its base and takes the target extension. */
  lemma ConvertedNameOfSimpleName(base: string, ext: string, target: string)
    requires '.' !in base
    ensures ConvertedName(base + "." + ext, target) == base + "_converted." + target
  {
    var name := base + "." + ext;
    assert name[|base|] == '.';
    assert forall i :: 0 <= i < |base| ==> name[i] == base[i];
    var f := FirstSegment(name, '.');
    assert |f| == |base|;
  }

  /** The converted file is in the required format: picking it again would
      start no conversion, for any original name. */
  lemma ConvertedNameNeedsNoConversion(name: string, format: string)
    requires format != [] && '.' !in format
    ensures RequiredExt(Str(format)).Some?
    ensures !DiffersFromRequired(RequiredExt(Str(format)),
      Extension(ConvertedName(name, RequiredExt(Str(format)).value)))
  {
    var target := ToLower(format);
    assert RequiredExt(Str(format)) == Some(target);
    LowerKeepsDots(format);
    var converted := ConvertedName(name, target);
    var base := FirstSegment(name, '.') + "_converted";
    assert converted == base + "." + target;
    ExtensionAfterLastDot(base, target);
    ToLowerIdempotent(format);
    assert Extension(converted) == target;
  }

  /** What the selected-file preview shows next to the name. */
  datatype Preview = NoCheck | Bar(progress: int) | Approved

  /** The preview: nothing without a required format, the bar while
      converting, approval once finished or when the extension already
      matches. */
  function PreviewOf(fileForm: Scalar, file: FileItem, g: Gauge): (p: Preview)
    requires fileForm.Str? || fileForm.Undef? || fileForm.Null?
    ensures RequiredExt(fileForm).None? ==> p == NoCheck
    ensures RequiredExt(fileForm).Some? && g.converting && !g.finished ==> p == Bar(g.progress)
    ensures p == Approved <==>
      (RequiredExt(fileForm).Some? && !(g.converting && !g.finished)
       && (g.finished || !DiffersFromRequired(RequiredExt(fileForm), Extension(file.name))))
  {
    var required := RequiredExt(fileForm);
    if required.None? then NoCheck
    else if g.converting && !g.finished then Bar(g.progress)
    else if g.finished || Extension(file.name) == required.value then Approved
    else NoCheck
  }

  /** The popup's own state. */
  class MainPopup {
    var selected: Option<FileItem>
    var gauge: Gauge
    var uploading: bool

    predicate Valid()
      reads this
    {
      GaugeOk(gauge)
    }

    constructor()
      ensures selected.None? && gauge == Gauge(0, false, false) && !uploading
      ensures Valid()
    {
      selected := None;
      gauge := Gauge(0, false, false);
      uploading := false;
    }

    /** The submit button: `disabled={isUploading || isConvertingNow}`. */
    predicate SubmitDisabled()
      reads this
    {
      uploading || gauge.converting
    }

    /** The first lines of `handleAutoConvert`, also run by a retry. */
    method StartConvert()
      modifies this
      ensures gauge == Gauge(0, true, false)
      ensures selected == old(selected) && uploading == old(uploading)
      ensures Valid()
    {
      gauge := Gauge(0, true, false);
    }

    /** `handleFileSelect`: nothing without a file; otherwise it becomes the
        selection, and the conversion starts when the required format is set
        and the extension differs from it (an empty one too), else the
        gauge shows a finished conversion. The returned target is what
        `handleAutoConvert` is asked to produce. */
    method HandleFileSelect(file: Option<FileItem>, fileForm: Scalar) returns (target: Option<string>)
      requires Valid()
      requires fileForm.Str? || fileForm.Undef? || fileForm.Null?
      modifies this
      ensures Valid()
      ensures file.None? ==> selected == old(selected) && gauge == old(gauge) && target.None?
      ensures file.Some? ==> selected == file
      ensures file.Some? && DiffersFromRequired(RequiredExt(fileForm), Extension(file.value.name)) ==>
        gauge == Gauge(0, true, false) && target == RequiredExt(fileForm)
      ensures file.Some? && !DiffersFromRequired(RequiredExt(fileForm), Extension(file.value.name)) ==>
        gauge == Gauge(100, old(gauge).converting, true) && target.None?
      ensures uploading == old(uploading)
    {
      target := None;
      if file.None? {
        return;
      }
      selected := file;
      gauge := gauge.(finished := false);
      var required := RequiredExt(fileForm);
      var current := Extension(file.value.name);
      if required.Some? && current != required.value {
        target := required;
        StartConvert();
      } else {
        gauge := Gauge(100, gauge.converting, true);
      }
    }

    /** The timer after a successful conversion: the gauge is full and the
        converted file replaces the selection. */
    method ConvertSucceeded(original: FileItem, target: string)
      modifies this
      ensures gauge == Gauge(100, false, true)
      ensures selected == Some(FileItem(ConvertedName(original.name, target)))
      ensures uploading == old(uploading)
      ensures Valid()
    {
      gauge := Gauge(100, false, true);
      selected := Some(FileItem(ConvertedName(original.name, target)));
    }

    /** A failed conversion empties the gauge; without a retry the selection
        is dropped, with one `StartConvert` follows a second later. */
    method ConvertFailed(retry: bool)
      modifies this
      ensures gauge == Gauge(0, false, false)
      ensures retry ==> selected == old(selected)
      ensures !retry ==> selected.None?
      ensures uploading == old(uploading)
      ensures Valid()
    {
      gauge := Gauge(0, false, false);
      if !retry {
        selected := None;
      }
    }

    /** One tick of the interval, which runs only while converting. */
    method OnTick()
      requires Valid() && gauge.converting
      modifies this
      ensures Valid()
      ensures gauge == Tick(old(gauge))
      ensures selected == old(selected) && uploading == old(uploading)
    {
      gauge := Tick(gauge);
    }

    /** The preview's remove button. */
    method RemoveSelected()
      requires Valid()
      modifies this
      ensures selected.None?
      ensures gauge == old(gauge).(progress := 0, finished := false)
      ensures uploading == old(uploading)
      ensures Valid()
    {
      selected := None;
      gauge := gauge.(progress := 0, finished := false);
    }

    /** `handleFileUpload`: the picked file, else the parent's
        `uploadedFile`, is sent; without either nothing happens. `ok` is the
        outcome of the request; the popup closes after a success. The
        button is disabled while uploading, so no second upload starts. */
    method HandleFileUpload(uploadedFile: Option<FileItem>, ok: bool) returns (sent: Option<FileItem>, closed: bool)
      requires !uploading
      modifies this
      ensures sent == (if selected.Some? then selected else uploadedFile)
      ensures closed <==> sent.Some? && ok
      ensures selected == old(selected) && gauge == old(gauge) && !uploading
    {
      sent := if selected.Some? then selected else uploadedFile;
      closed := false;
      if sent.None? {
        return;
      }
      uploading := true;
      closed := ok;
      uploading := false;
    }
  }

  /** A file already in the required format is approved as soon as it is
      picked; one that needs a conversion shows the bar at 0. */
  lemma SelectThenPreview(fileForm: Scalar, file: FileItem, g: Gauge)
    requires fileForm.Str? || fileForm.Undef? || fileForm.Null?
    requires RequiredExt(fileForm).Some?
    ensures !DiffersFromRequired(RequiredExt(fileForm), Extension(file.name)) ==>
      PreviewOf(fileForm, file, Gauge(100, g.converting, true)) == Approved
    ensures DiffersFromRequired(RequiredExt(fileForm), Extension(file.name)) ==>
      PreviewOf(fileForm, file, Gauge(0, true, false)) == Bar(0)
  {
  }

  /** After a successful conversion the converted file is approved. */
  lemma ConvertedFileApproved(fileForm: Scalar, original: FileItem)
    requires fileForm.Str? && fileForm.s != [] && '.' !in fileForm.s
    ensures PreviewOf(fileForm, FileItem(ConvertedName(original.name, RequiredExt(fileForm).value)),
      Gauge(100, false, true)) == Approved
  {
    ConvertedNameNeedsNoConversion(original.name, fileForm.s);
  }

  // ---------------------------------------------------------------------
  // The assignee summary, fed by the main page's getMemberName

  /** On the main page `getMemberName` joins the assignee ids themselves, so
      the summary shows the first id's text and counts the others. */
  lemma SummaryOfMainPageIds(ids: seq<Scalar>)
    requires forall x :: x in MainPage.JoinTexts(ids) ==> PlainName(x)
    ensures AssigneeDisplay(NamesArray(NameValue(MainPage.MemberName(MainPage.IdArray(ids)))))
      == if ids == [] then NoAssignee
         else if |ids| == 1 then MainPage.JoinText(ids[0])
         else MainPage.JoinText(ids[0]) + " 외 " + IntToString(|ids| - 1) + "명"
  {
    DisplayOfJoinedNames(MainPage.JoinTexts(ids));
  }
}
