/**
 * The detail popup of a to-do: who may upload, the extension check that
 * decides whether a picked file must be converted, the conversion gauge,
 * the list of picked files, the per-file convert requests after a submit,
 * and the one-line assignee summary. The gauge and the summary are shared
 * with the main popup.
 */
module DetailTodoPopup {
  import opened JsCore
  import opened Records
  import TodoBoard

  // ---------------------------------------------------------------------
  // Upload permission

  /** `Array.isArray(detailTodo?.assignees) && detailTodo.assignees.length > 0` */
  predicate HasAssignees(todo: Todo) {
    todo.assignees.Some? && |todo.assignees.value| > 0
  }

  /** `assignees.some(id => String(id) === String(currentUserId))` */
  predicate IsAssignee(todo: Todo, userId: Scalar) {
    HasAssignees(todo) && exists id :: id in todo.assignees.value && StrEq(id, userId)
  }

  /** `canUpload = !hasAssignees || isAssignee` */
  predicate CanUpload(todo: Todo, userId: Scalar) {
    !HasAssignees(todo) || IsAssignee(todo, userId)
  }

  /** `canDeleteExisting = (hasAssignees && isAssignee) || !hasAssignees` */
  predicate CanDeleteExisting(todo: Todo, userId: Scalar) {
    (HasAssignees(todo) && IsAssignee(todo, userId)) || !HasAssignees(todo)
  }

  /** Deleting a submitted file is allowed exactly when uploading is, and
      both depend only on the text of the user id. */
  lemma DeleteExistingIsUpload(todo: Todo, userId: Scalar)
    ensures CanDeleteExisting(todo, userId) <==> CanUpload(todo, userId)
    ensures CanUpload(todo, userId) <==> CanUpload(todo, Str(ToStr(userId)))
    ensures CanUpload(todo, userId) <==>
      todo.assignees.None? || todo.assignees.value == []
      || exists i :: 0 <= i < |todo.assignees.value| && ToStr(todo.assignees.value[i]) == ToStr(userId)
  {
    if todo.assignees.Some? && todo.assignees.value != [] {
      var ids := todo.assignees.value;
      if exists i :: 0 <= i < |ids| && ToStr(ids[i]) == ToStr(userId) {
        var i :| 0 <= i < |ids| && ToStr(ids[i]) == ToStr(userId);
        assert ids[i] in ids;
      }
    }
  }

  /** The popup compares texts where the card compares numbers: an assignee
      stored as "07" may edit the to-do on the card but may not upload. */
  lemma UploadAndEditDiffer(todo: Todo)
    requires todo.assignees == Some([Str("07")])
    requires todo.creatorId == Num(1)
    ensures !CanUpload(todo, Num(7))
    ensures NumEq(Str("07"), Num(7))
  {
    StringAndNumberComparisonsDiffer();
  }

  // ---------------------------------------------------------------------
  // Extensions and the conversion check

  /** A picked file; only its name matters here. */
  datatype FileItem = FileItem(name: string)

  /** `file.name.split(".").pop().toLowerCase()`: the lower-cased text after
      the last dot, or the whole name when it has none. */
  function Extension(name: string): (r: string)
    ensures |r| <= |name|
    ensures '.' !in name ==> r == ToLower(name)
    ensures forall i :: 0 <= i < |r| ==> r[i] != '.'
  {
    var seg := LastSegment(name, {'.'});
    assert '.' !in name ==> |seg| == |name|;
    ToLower(seg)
  }

  lemma LowerKeepsDots(s: string)
    ensures '.' in ToLower(s) <==> '.' in s
  {
    if '.' in s {
      var i :| 0 <= i < |s| && s[i] == '.';
      assert ToLower(s)[i] == '.';
    }
  }

  /** The extension of `base + "." + ext` is `ext`, lower-cased, whatever dots
      `base` holds. */
  lemma ExtensionAfterLastDot(base: string, ext: string)
    requires '.' !in ext
    ensures Extension(base + "." + ext) == ToLower(ext)
  {
    var s := base + "." + ext;
    var r := LastSegment(s, {'.'});
    assert s[|s| - |ext|..] == ext;
    assert s[|s| - |ext| - 1] == '.';
    assert forall i :: |s| - |ext| <= i < |s| ==> s[i] == ext[i - (|s| - |ext|)];
    assert |r| == |ext|;
  }

  /** `detailTodo.fileForm?.toLowerCase() || null`: the required format, or
      none. A format that is not a string makes `toLowerCase` throw, so the
      source demands a string or nothing. */
  function RequiredExt(fileForm: Scalar): (r: Option<string>)
    requires fileForm.Str? || fileForm.Undef? || fileForm.Null?
    ensures r.Some? <==> fileForm.Str? && fileForm.s != []
    ensures r.Some? ==> r.value == ToLower(fileForm.s) && r.value != []
  {
    if fileForm.Str? && fileForm.s != [] then Some(ToLower(fileForm.s)) else None
  }

  /** `requiredExt && currentExt !== requiredExt`: the test of the convert
      loop and of the main popup, where an empty extension differs too. */
  predicate DiffersFromRequired(required: Option<string>, ext: string) {
    required.Some? && ext != required.value
  }

  /** `needsConvert = requiredExt && currentExt && currentExt !== requiredExt` */
  predicate NeedsConvert(required: Option<string>, ext: string) {
    required.Some? && ext != [] && ext != required.value
  }

  /** The selection's check and the convert loop's test differ on exactly one
      kind of name: a file whose extension is empty ("notes."), which the
      selection approves and the loop still sends for conversion. */
  lemma NeedsConvertVersusDiffers(fileForm: Scalar, name: string)
    requires fileForm.Str? || fileForm.Undef? || fileForm.Null?
    ensures NeedsConvert(RequiredExt(fileForm), Extension(name))
      <==> DiffersFromRequired(RequiredExt(fileForm), Extension(name)) && Extension(name) != []
    ensures Extension(name) == [] ==>
      (DiffersFromRequired(RequiredExt(fileForm), Extension(name)) <==> RequiredExt(fileForm).Some?)
  {
  }

  /** A file already in the required format, in any letter case, needs no
      conversion. */
  lemma SameFormatNeedsNoConversion(base: string, format: string)
    requires '.' !in format
    ensures !NeedsConvert(RequiredExt(Str(format)), Extension(base + "." + format))
    ensures !DiffersFromRequired(RequiredExt(Str(format)), Extension(base + "." + format))
    ensures !DiffersFromRequired(RequiredExt(Str(ToUpper(format))), Extension(base + "." + format))
  {
    ExtensionAfterLastDot(base, format);
    var up := ToUpper(format);
    assert ToLower(up) == ToLower(format) by {
      forall i | 0 <= i < |format|
        ensures ToLower(up)[i] == ToLower(format)[i]
      {
      }
    }
  }

  // ---------------------------------------------------------------------
  // The conversion gauge (shared with the main popup)

  /** `convertProgress`, `isConvertingNow` and `isConversionFinished`. */
  datatype Gauge = Gauge(progress: int, converting: bool, finished: bool)

  /** Progress moves in steps of 2 between 0 and 100. */
  predicate GaugeOk(g: Gauge) {
    0 <= g.progress <= 100 && g.progress % 2 == 0
  }

  /** One interval tick: add 2, or, once at 100 or more, pin at 100, stop
      converting and mark the conversion finished. */
  function Tick(g: Gauge): (r: Gauge)
    ensures GaugeOk(g) ==> GaugeOk(r)
    ensures g.progress < 100 ==> r.progress == g.progress + 2 && r.converting == g.converting && r.finished == g.finished
    ensures g.progress >= 100 ==> r == Gauge(100, false, true)
  {
    if g.progress >= 100 then Gauge(100, false, true) else g.(progress := g.progress + 2)
  }

  /** `n` ticks in a row. */
  function Ticks(g: Gauge, n: nat): Gauge
    decreases n
  {
    if n == 0 then g else Ticks(Tick(g), n - 1)
  }

  /** From any valid position the gauge climbs by 2 per tick, reaches 100
      after `(100 - p) / 2` ticks, and the tick after that finishes the
      conversion. */
  lemma {:induction false} TicksToFinish(g: Gauge)
    requires GaugeOk(g)
    ensures forall k :: 0 <= k <= (100 - g.progress) / 2 ==> Ticks(g, k) == g.(progress := g.progress + 2 * k)
    ensures Ticks(g, (100 - g.progress) / 2 + 1) == Gauge(100, false, true)
    decreases 100 - g.progress
  {
    if g.progress == 100 {
      assert Ticks(g, 1) == Ticks(Tick(g), 0);
    } else {
      var h := Tick(g);
      TicksToFinish(h);
      assert (100 - h.progress) / 2 == (100 - g.progress) / 2 - 1;
      forall k | 0 <= k <= (100 - g.progress) / 2
        ensures Ticks(g, k) == g.(progress := g.progress + 2 * k)
      {
        if k > 0 {
          assert Ticks(g, k) == Ticks(h, k - 1);
        }
      }
      assert Ticks(g, (100 - g.progress) / 2 + 1) == Ticks(h, (100 - h.progress) / 2 + 1);
    }
  }

  // ---------------------------------------------------------------------
  // The picked files

  /** An entry of `selectedFiles`: `{ file, needsConvert }`. */
  datatype Selected = Selected(file: FileItem, needsConvert: bool)

  /** `files.map(file => ({ file, needsConvert }))` */
  function NewItems(files: seq<FileItem>, required: Option<string>): (r: seq<Selected>)
    ensures |r| == |files|
    ensures forall i :: 0 <= i < |files| ==>
      r[i].file == files[i] && (r[i].needsConvert <==> NeedsConvert(required, Extension(files[i].name)))
  {
    seq(|files|, i requires 0 <= i < |files| =>
      Selected(files[i], NeedsConvert(required, Extension(files[i].name))))
  }

  predicate AnyNeedsConvert(items: seq<Selected>) {
    exists i :: 0 <= i < |items| && items[i].needsConvert
  }

  /** `prev.filter((_, i) => i !== index)`: the preview's remove button. */
  function RemoveAt<T>(xs: seq<T>, index: int): (r: seq<T>)
    ensures 0 <= index < |xs| ==>
      |r| == |xs| - 1
      && (forall i :: 0 <= i < index ==> r[i] == xs[i])
      && (forall i :: index <= i < |r| ==> r[i] == xs[i + 1])
    ensures !(0 <= index < |xs|) ==> r == xs
  {
    if 0 <= index < |xs| then xs[..index] + xs[index + 1..] else xs
  }

  /** An entry of the submitted-files list. */
  datatype SubmittedFile = SubmittedFile(id: Scalar, fileName: string)

  /** `prev.filter(f => f.id !== fileId)` */
  function WithoutFile(files: seq<SubmittedFile>, fileId: Scalar): (r: seq<SubmittedFile>)
    ensures |r| <= |files|
    ensures forall f :: f in r <==> f in files && !StrictEq(f.id, fileId)
    ensures forall f :: multiset(r)[f] == if StrictEq(f.id, fileId) then 0 else multiset(files)[f]
  {
    var keep := (f: SubmittedFile) => !StrictEq(f.id, fileId);
    assert forall f :: multiset(Filter(files, keep))[f] == if keep(f) then multiset(files)[f] else 0 by {
      forall f {
        FilterMultiplicity(files, keep, f);
      }
    }
    Filter(files, keep)
  }

  /** The filter keeps the order of the list: it acts on each part
      separately. */
  lemma WithoutFileKeepsOrder(xs: seq<SubmittedFile>, ys: seq<SubmittedFile>, fileId: Scalar)
    ensures WithoutFile(xs + ys, fileId) == WithoutFile(xs, fileId) + WithoutFile(ys, fileId)
  {
    FilterAppend(xs, ys, (f: SubmittedFile) => !StrictEq(f.id, fileId));
  }

  /** A single entry is kept or dropped on its own id. */
  lemma WithoutFileOfOne(f: SubmittedFile, fileId: Scalar)
    ensures WithoutFile([f], fileId) == if StrictEq(f.id, fileId) then [] else [f]
  {
    assert [f][1..] == [];
  }

  // ---------------------------------------------------------------------
  // The convert requests after a submit

  /** The loop's test for each picked file, in order:
      `requiredExt && currentExt !== requiredExt`. */
  function WantedFlags(selected: seq<Selected>, required: Option<string>): (r: seq<bool>)
    ensures |r| == |selected|
    ensures forall i :: 0 <= i < |selected| ==>
      (r[i] <==> DiffersFromRequired(required, Extension(selected[i].file.name)))
  {
    seq(|selected|, i requires 0 <= i < |selected| =>
      DiffersFromRequired(required, Extension(selected[i].file.name)))
  }

  /** `fileInfo.id` throws exactly on an uploaded entry that is `null` or
      `undefined`; any other value reads some `id` and goes on. */
  predicate Nullish(entry: Scalar) {
    entry.Null? || entry.Undef?
  }

  /** The convert requests the loop sends from index `i` on, and whether it
      ends in the catch block. `wanted` holds the test for each picked file.
      The loop stops at a `null` or `undefined` uploaded entry
      (`fileInfo.id` throws), at an uploaded entry with no picked file at
      its index (`selectedFiles[i].file` throws), or at a refused request,
      in that order of tests. */
  function ConvertPlan(uploaded: seq<Scalar>, wanted: seq<bool>, refused: set<nat>, i: nat): (r: (seq<nat>, bool))
    requires i <= |uploaded|
    decreases |uploaded| - i
  {
    if i == |uploaded| then ([], false)
    else if Nullish(uploaded[i]) then ([], true)
    else if i >= |wanted| then ([], true)
    else if !wanted[i] then ConvertPlan(uploaded, wanted, refused, i + 1)
    else if i in refused then ([i], true)
    else
      var rest := ConvertPlan(uploaded, wanted, refused, i + 1);
      ([i] + rest.0, rest.1)
  }

  /** Every call is a wanted index in `[i, count)`. */
  predicate SendsOnlyWanted(calls: seq<nat>, count: nat, wanted: seq<bool>, i: nat) {
    forall k :: 0 <= k < |calls| ==> i <= calls[k] < count && calls[k] < |wanted| && wanted[calls[k]]
  }

  predicate Increasing(xs: seq<nat>) {
    forall k, l :: 0 <= k < l < |xs| ==> xs[k] < xs[l]
  }

  /** Only wanted indices are sent, each once and in increasing order. */
  lemma {:induction false} ConvertPlanSendsWanted(uploaded: seq<Scalar>, wanted: seq<bool>, refused: set<nat>, i: nat)
    requires i <= |uploaded|
    ensures SendsOnlyWanted(ConvertPlan(uploaded, wanted, refused, i).0, |uploaded|, wanted, i)
    ensures Increasing(ConvertPlan(uploaded, wanted, refused, i).0)
    decreases |uploaded| - i
  {
    if i < |uploaded| && !Nullish(uploaded[i]) && i < |wanted| {
      ConvertPlanSendsWanted(uploaded, wanted, refused, i + 1);
      var rest := ConvertPlan(uploaded, wanted, refused, i + 1);
      var calls := ConvertPlan(uploaded, wanted, refused, i).0;
      if !wanted[i] {
        assert calls == rest.0;
      } else if i in refused {
        assert calls == [i];
      } else {
        assert calls == [i] + rest.0;
        assert forall k :: 0 < k < |calls| ==> calls[k] == rest.0[k - 1];
      }
    }
  }

  /** The loop fails exactly when an uploaded entry is `null` or
      `undefined`, an uploaded entry has no picked file, or a wanted request
      is refused; otherwise every wanted index is sent. */
  lemma {:induction false} ConvertPlanFailure(uploaded: seq<Scalar>, wanted: seq<bool>, refused: set<nat>, i: nat)
    requires i <= |uploaded|
    ensures !ConvertPlan(uploaded, wanted, refused, i).1 <==>
      (forall j :: i <= j < |uploaded| ==> !Nullish(uploaded[j])) &&
      (i < |uploaded| ==> |uploaded| <= |wanted|) &&
      forall j :: i <= j < |uploaded| && wanted[j] ==> j !in refused
    ensures !ConvertPlan(uploaded, wanted, refused, i).1 ==>
      forall j :: i <= j < |uploaded| && wanted[j] ==> j in ConvertPlan(uploaded, wanted, refused, i).0
    decreases |uploaded| - i
  {
    if i < |uploaded| && !Nullish(uploaded[i]) && i < |wanted| {
      ConvertPlanFailure(uploaded, wanted, refused, i + 1);
    }
  }

  /** A `null` or `undefined` uploaded entry at index `k` ends the loop in
      the catch block, and no convert request is sent for `k` or any later
      index, whatever was picked. */
  lemma {:induction false} NullishEntryStops(uploaded: seq<Scalar>, wanted: seq<bool>, refused: set<nat>, i: nat, k: nat)
    requires i <= k < |uploaded| && Nullish(uploaded[k])
    ensures ConvertPlan(uploaded, wanted, refused, i).1
    ensures forall c :: c in ConvertPlan(uploaded, wanted, refused, i).0 ==> c < k
    decreases |uploaded| - i
  {
    if i < k && !Nullish(uploaded[i]) && i < |wanted| && (!wanted[i] || i !in refused) {
      NullishEntryStops(uploaded, wanted, refused, i + 1, k);
    }
  }

  /** A picked "a.png" to be converted to pdf, whose uploaded entry came
      back `null`: no request is sent and the loop ends in the catch block. */
  lemma NullEntrySendsNothing()
    ensures ConvertPlan([Null], WantedFlags([Selected(FileItem("a.png"), true)], Some("pdf")), {}, 0) == ([], true)
  {
    NullishEntryStops([Null], WantedFlags([Selected(FileItem("a.png"), true)], Some("pdf")), {}, 0, 0);
    assert forall c :: c in ConvertPlan([Null], WantedFlags([Selected(FileItem("a.png"), true)], Some("pdf")), {}, 0).0 ==> c < 0;
  }

  /** The loop has sent `calls` and reached index `i` on the way to the
      whole plan. */
  predicate PlanReached(uploaded: seq<Scalar>, wanted: seq<bool>, refused: set<nat>, calls: seq<nat>, i: nat)
    requires i <= |uploaded|
  {
    var whole := ConvertPlan(uploaded, wanted, refused, 0);
    var rest := ConvertPlan(uploaded, wanted, refused, i);
    whole.0 == calls + rest.0 && whole.1 == rest.1
  }

  lemma PlanStart(uploaded: seq<Scalar>, wanted: seq<bool>, refused: set<nat>)
    ensures PlanReached(uploaded, wanted, refused, [], 0)
  {
    assert [] + ConvertPlan(uploaded, wanted, refused, 0).0 == ConvertPlan(uploaded, wanted, refused, 0).0;
  }

  /** A file already in the required format is skipped. */
  lemma PlanSkip(uploaded: seq<Scalar>, wanted: seq<bool>, refused: set<nat>, calls: seq<nat>, i: nat)
    requires i < |uploaded| && !Nullish(uploaded[i]) && i < |wanted| && !wanted[i]
    requires PlanReached(uploaded, wanted, refused, calls, i)
    ensures PlanReached(uploaded, wanted, refused, calls, i + 1)
  {
  }

  /** A request that succeeds is one more call. */
  lemma PlanSend(uploaded: seq<Scalar>, wanted: seq<bool>, refused: set<nat>, calls: seq<nat>, i: nat)
    requires i < |uploaded| && !Nullish(uploaded[i]) && i < |wanted| && wanted[i] && i !in refused
    requires PlanReached(uploaded, wanted, refused, calls, i)
    ensures PlanReached(uploaded, wanted, refused, calls + [i], i + 1)
  {
    var rest := ConvertPlan(uploaded, wanted, refused, i + 1);
    assert ConvertPlan(uploaded, wanted, refused, i) == ([i] + rest.0, rest.1);
    assert calls + ([i] + rest.0) == (calls + [i]) + rest.0;
  }

  /** Where the loop stops: a `null` or `undefined` entry, a missing picked
      file, a refused request, or the end of the uploaded files. */
  lemma PlanStop(uploaded: seq<Scalar>, wanted: seq<bool>, refused: set<nat>, calls: seq<nat>, i: nat)
    requires i <= |uploaded|
    requires PlanReached(uploaded, wanted, refused, calls, i)
    ensures i == |uploaded| ==> ConvertPlan(uploaded, wanted, refused, 0) == (calls, false)
    ensures i < |uploaded| && Nullish(uploaded[i]) ==> ConvertPlan(uploaded, wanted, refused, 0) == (calls, true)
    ensures i < |uploaded| && !Nullish(uploaded[i]) && i >= |wanted| ==>
      ConvertPlan(uploaded, wanted, refused, 0) == (calls, true)
    ensures i < |uploaded| && !Nullish(uploaded[i]) && i < |wanted| && wanted[i] && i in refused ==>
      ConvertPlan(uploaded, wanted, refused, 0) == (calls + [i], true)
  {
    assert calls + [] == calls;
  }

  /** The `for` loop over `uploadedFiles`. */
  method ConvertCalls(uploaded: seq<Scalar>, selected: seq<Selected>, required: Option<string>, refused: set<nat>)
    returns (calls: seq<nat>, failed: bool)
    ensures (calls, failed) == ConvertPlan(uploaded, WantedFlags(selected, required), refused, 0)
  {
    ghost var wanted := WantedFlags(selected, required);
    var n := |uploaded|;
    calls := [];
    failed := false;
    var i := 0;
    PlanStart(uploaded, wanted, refused);
    while i < n
      invariant 0 <= i <= n
      invariant PlanReached(uploaded, wanted, refused, calls, i)
    {
      if Nullish(uploaded[i]) {
        PlanStop(uploaded, wanted, refused, calls, i);
        failed := true;
        return;
      }
      if i >= |selected| {
        PlanStop(uploaded, wanted, refused, calls, i);
        failed := true;
        return;
      }
      var ext := Extension(selected[i].file.name);
      assert wanted[i] == DiffersFromRequired(required, ext);
      if !DiffersFromRequired(required, ext) {
        PlanSkip(uploaded, wanted, refused, calls, i);
        i := i + 1;
        continue;
      }
      if i in refused {
        PlanStop(uploaded, wanted, refused, calls, i);
        calls := calls + [i];
        failed := true;
        return;
      }
      PlanSend(uploaded, wanted, refused, calls, i);
      calls := calls + [i];
      i := i + 1;
    }
    PlanStop(uploaded, wanted, refused, calls, i);
  }

  // ---------------------------------------------------------------------
  // The assignee summary (shared with the main popup)

  /** What `getMemberName` hands back: an array, or any other value. */
  datatype Names = NameList(names: seq<string>) | NameValue(value: Scalar)

  /** `parts.map(s => s.trim())` */
  function TrimEach(parts: seq<string>): (r: seq<string>)
    ensures |r| == |parts|
  {
    if parts == [] then [] else [Trim(parts[0])] + TrimEach(parts[1..])
  }

  /** `Boolean(s)` for a string. */
  predicate NonEmpty(s: string) {
    s != ""
  }

  /** `namesArr`: an array as it is, else
      `String(names || "").split(",").map(s => s.trim()).filter(Boolean)`. */
  function NamesArray(n: Names): seq<string> {
    match n
    case NameList(xs) => xs
    case NameValue(v) =>
      var text := if Truthy(v) then ToStr(v) else "";
      Filter(TrimEach(Split(text, ',')), NonEmpty)
  }

  const NoAssignee: string := "담당자 없음"

  /** `assigneeDisplay`: none, the one name, or the first name and how many
      others. */
  function AssigneeDisplay(names: seq<string>): string {
    if |names| == 0 then NoAssignee
    else if |names| == 1 then names[0]
    else names[0] + " 외 " + IntToString(|names| - 1) + "명"
  }

  /** A name `getMemberName` can join and the summary can split back. */
  predicate PlainName(n: string) {
    n != [] && ',' !in n && !IsJsWhitespace(n[0]) && !IsJsWhitespace(n[|n| - 1])
  }

  lemma HeadTail<T>(xs: seq<T>)
    requires xs != []
    ensures xs == [xs[0]] + xs[1..]
  {
  }

  lemma JoinCons(p: string, rest: seq<string>, sep: string)
    requires rest != []
    ensures Join([p] + rest, sep) == p + sep + Join(rest, sep)
  {
    assert ([p] + rest)[1..] == rest;
  }

  lemma FirstSegmentBefore(p: string, c: char, t: string)
    requires c !in p
    ensures FirstSegment(p + [c] + t, c) == p
  {
    var s := p + [c] + t;
    assert s[|p|] == c;
    assert forall i :: 0 <= i < |p| ==> s[i] == p[i];
  }

  lemma SplitNoSeparator(p: string, c: char)
    requires c !in p
    ensures Split(p, c) == [p]
  {
    assert |FirstSegment(p, c)| == |p|;
  }

  lemma SplitCons(p: string, c: char, t: string)
    requires c !in p
    ensures Split(p + [c] + t, c) == [p] + Split(t, c)
  {
    var s := p + [c] + t;
    FirstSegmentBefore(p, c, t);
    assert s[|p| + 1..] == t;
  }

  lemma {:induction false} TrimStartSpaces(pre: string, n: string)
    requires forall i :: 0 <= i < |pre| ==> pre[i] == ' '
    ensures TrimStart(pre + n) == TrimStart(n)
    decreases |pre|
  {
    if pre != [] {
      assert (pre + n)[1..] == pre[1..] + n;
      TrimStartSpaces(pre[1..], n);
    } else {
      assert pre + n == n;
    }
  }

  lemma TrimAfterSpaces(pre: string, n: string)
    requires forall i :: 0 <= i < |pre| ==> pre[i] == ' '
    requires Trim(n) == n
    ensures Trim(pre + n) == n
  {
    TrimStartSpaces(pre, n);
  }

  /** The parts of `pre + names.join(", ")` split at the commas. */
  function Spaced(names: seq<string>, pre: string): (r: seq<string>)
    ensures |r| == |names|
  {
    if names == [] then [] else [pre + names[0]] + Spaced(names[1..], " ")
  }

  lemma JoinedForSplit(pre: string, n0: string, rest: seq<string>)
    requires rest != []
    ensures pre + Join([n0] + rest, ", ") == (pre + n0) + [','] + (" " + Join(rest, ", "))
  {
    JoinCons(n0, rest, ", ");
    assert ", " == [','] + " ";
  }

  /** Splitting `pre + names.join(", ")` at the commas leaves each name with
      the space that followed the comma before it. */
  lemma {:induction false} SplitJoined(names: seq<string>, pre: string)
    requires names != []
    requires ',' !in pre
    requires forall i :: 0 <= i < |names| ==> ',' !in names[i]
    ensures Split(pre + Join(names, ", "), ',') == Spaced(names, pre)
    decreases |names|
  {
    var n0 := names[0];
    if |names| == 1 {
      assert pre + Join(names, ", ") == pre + n0;
      SplitNoSeparator(pre + n0, ',');
    } else {
      var rest := names[1..];
      HeadTail(names);
      var tail := " " + Join(rest, ", ");
      JoinedForSplit(pre, n0, rest);
      SplitCons(pre + n0, ',', tail);
      assert forall i :: 0 <= i < |rest| ==> rest[i] == names[i + 1];
      SplitJoined(rest, " ");
    }
  }

  lemma TrimEachCons(p: string, parts: seq<string>)
    ensures TrimEach([p] + parts) == [Trim(p)] + TrimEach(parts)
  {
    assert ([p] + parts)[1..] == parts;
  }

  lemma TrimSpacedHead(pre: string, n0: string, tail: seq<string>)
    requires forall i :: 0 <= i < |pre| ==> pre[i] == ' '
    requires Trim(n0) == n0
    ensures TrimEach([pre + n0] + tail) == [n0] + TrimEach(tail)
  {
    TrimAfterSpaces(pre, n0);
    TrimEachCons(pre + n0, tail);
  }

  /** Trimming the split parts gives the names back. */
  lemma {:induction false} TrimSpaced(names: seq<string>, pre: string)
    requires forall i :: 0 <= i < |pre| ==> pre[i] == ' '
    requires forall i :: 0 <= i < |names| ==> PlainName(names[i])
    ensures TrimEach(Spaced(names, pre)) == names
    decreases |names|
  {
    if names != [] {
      var rest := names[1..];
      assert forall i :: 0 <= i < |rest| ==> rest[i] == names[i + 1];
      TrimSpaced(rest, " ");
      var sp := Spaced(rest, " ");
      assert Spaced(names, pre) == [pre + names[0]] + sp;
      TrimKeeps(names[0]);
      TrimSpacedHead(pre, names[0], sp);
      HeadTail(names);
    }
  }

  /** Splitting a non-empty list of names joined with ", " and trimming the
      parts gives the names back. */
  lemma TrimmedSplitOfJoined(names: seq<string>)
    requires names != []
    requires forall i :: 0 <= i < |names| ==> PlainName(names[i])
    ensures TrimEach(Split(Join(names, ", "), ',')) == names
  {
    SplitJoined(names, "");
    TrimSpaced(names, "");
    assert "" + Join(names, ", ") == Join(names, ", ");
  }

  /** Splitting the empty text gives one empty part, which trims to itself. */
  lemma EmptyTextParts()
    ensures TrimEach(Split("", ',')) == [""]
  {
    assert FirstSegment("", ',') == [];
    assert Split("", ',') == [""];
    assert Trim("") == TrimEnd(TrimStart(""));
  }

  /** The empty text gives no names; any other text is split at its
      commas, trimmed and stripped of empty entries. */
  lemma NamesArrayOfText(text: string)
    ensures text == [] ==> NamesArray(NameValue(Str(text))) == []
    ensures text != [] ==> NamesArray(NameValue(Str(text))) == Filter(TrimEach(Split(text, ',')), NonEmpty)
  {
    if text == [] {
      EmptyTextParts();
      FilterNone([""], NonEmpty);
    }
  }

  /** Joining names that are not empty gives a text that is not empty. */
  lemma JoinNotEmpty(names: seq<string>, sep: string)
    requires names != [] && names[0] != []
    ensures Join(names, sep) != []
  {
    if |names| > 1 {
      assert |Join(names, sep)| >= |names[0]|;
    }
  }

  /** Splitting the text `getMemberName` joins with ", " recovers the names. */
  lemma NamesOfJoined(names: seq<string>)
    requires forall x :: x in names ==> PlainName(x)
    ensures NamesArray(NameValue(Str(Join(names, ", ")))) == names
  {
    var text := Join(names, ", ");
    if names == [] {
      NamesArrayOfText(text);
    } else {
      assert names[0] in names;
      JoinNotEmpty(names, ", ");
      NamesArrayOfText(text);
      assert forall i :: 0 <= i < |names| ==> PlainName(names[i]) by {
        forall i | 0 <= i < |names| ensures PlainName(names[i]) {
          assert names[i] in names;
        }
      }
      TrimmedSplitOfJoined(names);
      assert forall x :: x in names ==> NonEmpty(x);
      FilterAll(names, NonEmpty);
    }
  }

  /** The summary of those names shows none, the one name, or the first name
      and the exact number of the others. */
  lemma DisplayOfJoinedNames(names: seq<string>)
    requires forall x :: x in names ==> PlainName(x)
    ensures AssigneeDisplay(NamesArray(NameValue(Str(Join(names, ", ")))))
      == if names == [] then NoAssignee
         else if |names| == 1 then names[0]
         else names[0] + " 외 " + IntToString(|names| - 1) + "명"
  {
    NamesOfJoined(names);
  }

  // ---------------------------------------------------------------------
  // The source as written: the first render reads `selectedFiles.length`

  /** The outcome of an expression that may throw a `TypeError`. */
  datatype Thrown<T> = Value(value: T) | TypeError

  /** As written, `selectedFiles` starts as `null`. */
  const InitialSelectionAsWritten: Option<seq<Selected>> := None

  /** `selectedFiles.length`, as the upload section renders it. */
  function SelectionLengthAsWritten(sel: Option<seq<Selected>>): (r: Thrown<nat>)
    ensures r.TypeError? <==> sel.None?
    ensures sel.Some? ==> r == Value(|sel.value|)
  {
    if sel.None? then TypeError else Value(|sel.value|)
  }

  /** `[...prev, ...newItems]` */
  function AppendAsWritten(prev: Option<seq<Selected>>, items: seq<Selected>): (r: Thrown<seq<Selected>>)
    ensures r.TypeError? <==> prev.None?
    ensures prev.Some? ==> r == Value(prev.value + items)
  {
    if prev.None? then TypeError else Value(prev.value + items)
  }

  /** Whenever the upload section is shown, its first render throws, and so
      would the first selection. */
  lemma FirstRenderThrows(todo: Todo, userId: Scalar, items: seq<Selected>)
    requires CanUpload(todo, userId)
    ensures SelectionLengthAsWritten(InitialSelectionAsWritten).TypeError?
    ensures AppendAsWritten(InitialSelectionAsWritten, items).TypeError?
  {
  }

  // ---------------------------------------------------------------------
  // The popup's state, with the selection starting empty

  class DetailPopup {
    var selected: seq<Selected>
    var submitted: seq<SubmittedFile>
    var gauge: Gauge
    var uploading: bool

    predicate Valid()
      reads this
    {
      GaugeOk(gauge)
    }

    constructor()
      ensures selected == [] && submitted == [] && !uploading
      ensures gauge == Gauge(0, false, false)
      ensures Valid()
    {
      selected := [];
      submitted := [];
      gauge := Gauge(0, false, false);
      uploading := false;
    }

    /** `handleFileSelect`: nothing for an empty pick; otherwise the new
        items go after the old ones, and the gauge restarts when any of them
        needs converting, else it shows a finished conversion. */
    method HandleFileSelect(files: seq<FileItem>, fileForm: Scalar)
      requires Valid()
      requires fileForm.Str? || fileForm.Undef? || fileForm.Null?
      modifies this
      ensures Valid()
      ensures files == [] ==> selected == old(selected) && gauge == old(gauge)
      ensures files != [] ==> selected == old(selected) + NewItems(files, RequiredExt(fileForm))
      ensures files != [] && AnyNeedsConvert(NewItems(files, RequiredExt(fileForm))) ==>
        gauge == Gauge(0, true, false)
      ensures files != [] && !AnyNeedsConvert(NewItems(files, RequiredExt(fileForm))) ==>
        gauge == Gauge(100, old(gauge).converting, true)
      ensures submitted == old(submitted) && uploading == old(uploading)
    {
      if files == [] {
        return;
      }
      gauge := gauge.(finished := false);
      var required := RequiredExt(fileForm);
      var items := NewItems(files, required);
      selected := selected + items;
      if required.Some? && AnyNeedsConvert(items) {
        gauge := Gauge(0, true, gauge.finished);
      } else {
        gauge := Gauge(100, gauge.converting, true);
      }
    }

    /** One tick of the interval, which runs only while converting. */
    method OnTick()
      requires Valid() && gauge.converting
      modifies this
      ensures Valid()
      ensures gauge == Tick(old(gauge))
      ensures selected == old(selected) && submitted == old(submitted) && uploading == old(uploading)
    {
      gauge := Tick(gauge);
    }

    /** The remove button of the preview at `index`. */
    method RemovePreview(index: int)
      modifies this
      ensures selected == RemoveAt(old(selected), index)
      ensures gauge == old(gauge) && submitted == old(submitted) && uploading == old(uploading)
    {
      selected := RemoveAt(selected, index);
    }

    /** `handleDeleteFile(fileId)` once the user answered and, if so, the
        request came back. */
    method HandleDeleteFile(fileId: Scalar, confirmed: bool, ok: bool)
      modifies this
      ensures confirmed && ok ==> submitted == WithoutFile(old(submitted), fileId)
      ensures !(confirmed && ok) ==> submitted == old(submitted)
      ensures selected == old(selected) && gauge == old(gauge) && uploading == old(uploading)
    {
      if confirmed && ok {
        submitted := WithoutFile(submitted, fileId);
      }
    }

    /** `handleFileUpload`: nothing for an empty selection; a failed submit
        keeps the selection; a successful one sends the convert requests,
        clears the selection and shows the gauge as finished. `uploaded` is
        the list the submit returned, `None` when it failed. */
    method HandleFileUpload(uploaded: Option<seq<Scalar>>, required: Option<string>, refused: set<nat>)
      returns (calls: seq<nat>)
      requires Valid() && !uploading
      modifies this
      ensures Valid()
      ensures old(selected) == [] || uploaded.None? ==>
        calls == [] && selected == old(selected) && gauge == old(gauge)
      ensures old(selected) != [] && uploaded.Some? ==>
        calls == ConvertPlan(uploaded.value, WantedFlags(old(selected), required), refused, 0).0
        && selected == [] && gauge == old(gauge).(progress := 100, finished := true)
      ensures submitted == old(submitted) && !uploading
    {
      calls := [];
      if selected == [] {
        return;
      }
      uploading := true;
      if uploaded.None? {
        uploading := false;
        return;
      }
      var failed;
      calls, failed := ConvertCalls(uploaded.value, selected, required, refused);
      selected := [];
      gauge := gauge.(progress := 100, finished := true);
      uploading := false;
    }
  }

  // ---------------------------------------------------------------------
  // The summary of the board's names

  /** With plain member names, the detail popup's summary of the text the
      board's `getMemberName` builds counts every assignee id: one entry per
      id, the unknown ones as "미지정". */
  lemma SummaryCountsBoardIds(arg: TodoBoard.IdArg, members: seq<Member>)
    requires forall m :: m in members ==> PlainName(m.userName)
    requires |TodoBoard.IdsOf(arg)| > 1 || (|TodoBoard.IdsOf(arg)| == 1 && Truthy(TodoBoard.IdsOf(arg)[0]))
    ensures |NamesArray(NameValue(Str(TodoBoard.MemberNameText(arg, members))))| == |TodoBoard.IdsOf(arg)|
  {
    var ids := TodoBoard.IdsOf(arg);
    var names := seq(|ids|, i requires 0 <= i < |ids| => TodoBoard.NameOf(ids[i], members));
    assert TodoBoard.MemberNameText(arg, members) == Join(names, ", ");
    assert PlainName(TodoBoard.Unassigned);
    forall x | x in names
      ensures PlainName(x)
    {
      var i :| 0 <= i < |names| && names[i] == x;
      var m := TodoBoard.FindMember(members, ids[i]);
      if m.Some? {
        assert m.value in members;
      }
    }
    NamesOfJoined(names);
  }
}
