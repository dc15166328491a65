/**
 * The add-to-do popup. The form it edits belongs to the board (`newTodo`,
 * replaced through `onChange`); the popup itself only keeps the custom
 * file format and whether its input is shown. The field edit, the assignee
 * toggle and the assignee summary are written the same way in the edit
 * popup, which uses these definitions.
 */
module AddTodoPopup {
  import opened JsCore
  import opened Records
  import TodoBoard

  // ---------------------------------------------------------------------
  // Field edits

  /** The `name` attributes of the form's inputs. */
  datatype FieldName = Title | Content | Date | FileFormField

  function GetField(form: TodoForm, name: FieldName): string {
    match name
    case Title => form.title
    case Content => form.content
    case Date => form.date
    case FileFormField => form.fileForm
  }

  /** `{ ...form, [name]: value }`: the named field changes, nothing else. */
  function SetField(form: TodoForm, name: FieldName, value: string): (r: TodoForm)
    ensures GetField(r, name) == value
    ensures forall n :: n != name ==> GetField(r, n) == GetField(form, n)
    ensures r.assignees == form.assignees
  {
    match name
    case Title => form.(title := value)
    case Content => form.(content := value)
    case Date => form.(date := value)
    case FileFormField => form.(fileForm := value)
  }

  /** A form is determined by its four fields and its assignees, so an edit
      that writes back a field's own value changes nothing. */
  lemma SetFieldToSameValue(form: TodoForm, name: FieldName)
    ensures SetField(form, name, GetField(form, name)) == form
  {
  }

  // ---------------------------------------------------------------------
  // The assignee toggle

  /** `id => id !== userId` */
  function NotId(userId: string): string -> bool {
    x => x != userId
  }

  /** `handleAssigneeToggle`: every copy of a chosen id goes, an absent id
      is appended. */
  function ToggleAssignee(selected: seq<string>, userId: string): (r: seq<string>)
    ensures userId in r <==> userId !in selected
    ensures forall x :: x != userId ==> (x in r <==> x in selected)
    ensures userId !in selected ==> r == selected + [userId]
  {
    if userId in selected then Filter(selected, NotId(userId)) else selected + [userId]
  }

  /** Removing takes out every copy of the id and keeps all other ids with
      their multiplicities. */
  lemma {:induction false} RemoveEveryCopy(selected: seq<string>, userId: string)
    ensures multiset(Filter(selected, NotId(userId))) == multiset(selected)[userId := 0]
  {
    if selected != [] {
      var x, rest := selected[0], selected[1..];
      RemoveEveryCopy(rest, userId);
      assert selected == [x] + rest;
      assert Filter(selected, NotId(userId)) == (if x != userId then [x] else []) + Filter(rest, NotId(userId));
      RemoveFromCons(x, rest, userId, Filter(selected, NotId(userId)), Filter(rest, NotId(userId)));
    }
  }

  /** One element in front: it is dropped when it is the id and kept
      otherwise. */
  lemma RemoveFromCons(x: string, rest: seq<string>, userId: string, kept: seq<string>, keptRest: seq<string>)
    requires multiset(keptRest) == multiset(rest)[userId := 0]
    requires kept == (if x != userId then [x] else []) + keptRest
    ensures multiset(kept) == multiset([x] + rest)[userId := 0]
  {
    assert multiset([x] + rest) == multiset{x} + multiset(rest);
    if x == userId {
      assert kept == keptRest;
    } else {
      assert multiset(kept) == multiset{x} + multiset(keptRest);
    }
  }

  /** Choosing an absent member and then un-choosing them restores the
      list exactly. */
  lemma ToggleTwiceRestores(selected: seq<string>, userId: string)
    requires userId !in selected
    ensures ToggleAssignee(ToggleAssignee(selected, userId), userId) == selected
  {
    FilterAppend(selected, [userId], NotId(userId));
    FilterAll(selected, NotId(userId));
  }

  /** `newTodo.assignees?.includes(String(m.userId))`: the highlight of a
      member in the dropdown. */
  predicate IsSelected(form: TodoForm, m: Member) {
    ToStr(m.userId) in form.assignees
  }

  /** Clicking a member flips their highlight and leaves every member with
      another id text as it was. */
  lemma ToggleFlipsHighlight(form: TodoForm, m: Member, other: Member)
    ensures var f := form.(assignees := ToggleAssignee(form.assignees, ToStr(m.userId)));
      (IsSelected(f, m) <==> !IsSelected(form, m))
      && (ToStr(other.userId) != ToStr(m.userId) ==> (IsSelected(f, other) <==> IsSelected(form, other)))
  {
  }

  // ---------------------------------------------------------------------
  // The assignee summary

  const NoneChosen: string := "담당자 지정 안함"

  /** `teamMembers.find(m => String(m.userId) === id)` */
  function FindByText(members: seq<Member>, id: string): (r: Option<Member>)
    ensures r.Some? ==> r.value in members && ToStr(r.value.userId) == id
    ensures r.None? ==> forall m :: m in members ==> ToStr(m.userId) != id
  {
    if members == [] then None
    else if ToStr(members[0].userId) == id then Some(members[0])
    else FindByText(members[1..], id)
  }

  /** `.map(id => find(..)?.userName).filter(Boolean)`: the names of the
      found members, in the order of the ids, without unknown ids and
      without empty names. */
  function KnownNames(ids: seq<string>, members: seq<Member>): (r: seq<string>)
    ensures |r| <= |ids|
    ensures forall n :: n in r ==> n != "" && exists m :: m in members && m.userName == n
  {
    if ids == [] then []
    else
      var found := FindByText(members, ids[0]);
      (if found.Some? && found.value.userName != "" then [found.value.userName] else [])
      + KnownNames(ids[1..], members)
  }

  /** The dropdown toggle's text. */
  function AssigneeSummary(ids: seq<string>, members: seq<Member>): (r: string)
    ensures ids == [] ==> r == NoneChosen
    ensures ids != [] ==> r == Join(KnownNames(ids, members), ", ")
  {
    if |ids| > 0 then Join(KnownNames(ids, members), ", ") else NoneChosen
  }

  /** When every id belongs to a member with a name, the summary lists one
      name per id, in order. */
  lemma {:induction false} AllKnownNamesListed(ids: seq<string>, members: seq<Member>)
    requires forall i :: 0 <= i < |ids| ==>
      FindByText(members, ids[i]).Some? && FindByText(members, ids[i]).value.userName != ""
    ensures |KnownNames(ids, members)| == |ids|
    ensures forall i :: 0 <= i < |ids| ==> KnownNames(ids, members)[i] == FindByText(members, ids[i]).value.userName
  {
    if ids != [] {
      AllKnownNamesListed(ids[1..], members);
    }
  }

  /** An id no member has adds nothing to the summary. */
  lemma {:induction false} UnknownIdDropped(ids: seq<string>, id: string, members: seq<Member>)
    requires FindByText(members, id).None?
    ensures KnownNames(ids + [id], members) == KnownNames(ids, members)
  {
    if ids == [] {
      assert KnownNames([id], members) == [] + KnownNames([], members);
    } else {
      assert (ids + [id])[1..] == ids[1..] + [id];
      UnknownIdDropped(ids[1..], id, members);
    }
  }

  /** Chosen ids that no member has give an empty summary, not the
      "nobody chosen" text. */
  lemma UnknownIdsShowBlank(ids: seq<string>, members: seq<Member>)
    requires ids != []
    requires forall i :: 0 <= i < |ids| ==> FindByText(members, ids[i]).None?
    ensures AssigneeSummary(ids, members) == ""
  {
    assert KnownNames(ids, members) == [] by {
      NoKnownNames(ids, members);
    }
  }

  lemma {:induction false} NoKnownNames(ids: seq<string>, members: seq<Member>)
    requires forall i :: 0 <= i < |ids| ==> FindByText(members, ids[i]).None?
    ensures KnownNames(ids, members) == []
  {
    if ids != [] {
      NoKnownNames(ids[1..], members);
    }
  }

  // ---------------------------------------------------------------------
  // Submit

  /** How `handleSubmit` ends: the first failing check's alert, or `onAdd`. */
  datatype SubmitOutcome = NeedTitle | NeedDate | NeedContent | NeedFormat | Added

  /** The checks of `handleSubmit`, in order. */
  function SubmitCheck(form: TodoForm, showCustomInput: bool, customFileFormat: string): (o: SubmitOutcome)
    ensures o == Added <==>
      Trim(form.title) != "" && form.date != "" && Trim(form.content) != ""
      && !(showCustomInput && Trim(customFileFormat) == "")
    ensures o == NeedTitle <==> Trim(form.title) == ""
    ensures o == NeedDate <==> Trim(form.title) != "" && form.date == ""
    ensures o == NeedContent <==> Trim(form.title) != "" && form.date != "" && Trim(form.content) == ""
  {
    if Trim(form.title) == "" then NeedTitle
    else if form.date == "" then NeedDate
    else if Trim(form.content) == "" then NeedContent
    else if showCustomInput && Trim(customFileFormat) == "" then NeedFormat
    else Added
  }

  /** The option that opens the custom format input. */
  const Other: string := "기타"

  /** The popup's own state; `board` holds the form. */
  class AddPopup {
    var customFileFormat: string
    var showCustomInput: bool

    constructor()
      ensures customFileFormat == "" && !showCustomInput
    {
      customFileFormat := "";
      showCustomInput := false;
    }

    /** While the custom input is shown, the form's format is the custom
        text. */
    predicate Synced(board: TodoBoard.Board)
      reads this, board
    {
      showCustomInput ==> board.newTodo.fileForm == customFileFormat
    }

    /** `handleChange`: the format select resets the custom text and shows
        its input for "기타" (storing an empty format) or hides it (storing
        the choice); any other input changes only its own field. */
    method HandleChange(board: TodoBoard.Board, name: FieldName, value: string)
      requires Synced(board)
      modifies this, board
      ensures Synced(board)
      ensures name == FileFormField && value == Other ==>
        showCustomInput && customFileFormat == "" && board.newTodo == SetField(old(board.newTodo), FileFormField, "")
      ensures name == FileFormField && value != Other ==>
        !showCustomInput && customFileFormat == "" && board.newTodo == SetField(old(board.newTodo), FileFormField, value)
      ensures name != FileFormField ==>
        board.newTodo == SetField(old(board.newTodo), name, value)
        && showCustomInput == old(showCustomInput) && customFileFormat == old(customFileFormat)
      ensures board.popupCatId == old(board.popupCatId)
    {
      if name == FileFormField {
        if value == Other {
          showCustomInput := true;
          customFileFormat := "";
          board.SetNewTodo(SetField(board.newTodo, FileFormField, ""));
        } else {
          showCustomInput := false;
          customFileFormat := "";
          board.SetNewTodo(SetField(board.newTodo, FileFormField, value));
        }
        return;
      }
      board.SetNewTodo(SetField(board.newTodo, name, value));
    }

    /** `handleCustomFormatChange`: the text is upper-cased, kept, and
        stored as the format. */
    method HandleCustomFormatChange(board: TodoBoard.Board, value: string)
      requires Synced(board)
      modifies this, board
      ensures Synced(board)
      ensures customFileFormat == ToUpper(value)
      ensures board.newTodo == old(board.newTodo).(fileForm := ToUpper(value))
      ensures showCustomInput == old(showCustomInput) && board.popupCatId == old(board.popupCatId)
    {
      var upper := ToUpper(value);
      customFileFormat := upper;
      board.SetNewTodo(board.newTodo.(fileForm := upper));
    }

    /** A click on a member in the dropdown. */
    method HandleAssigneeToggle(board: TodoBoard.Board, userId: string)
      requires Synced(board)
      modifies board
      ensures Synced(board)
      ensures board.newTodo == old(board.newTodo).(assignees := ToggleAssignee(old(board.newTodo).assignees, userId))
      ensures board.popupCatId == old(board.popupCatId)
    {
      board.SetNewTodo(board.newTodo.(assignees := ToggleAssignee(board.newTodo.assignees, userId)));
    }

    /** `handleSubmit`: `onAdd` runs only when every check passes. */
    method HandleSubmit(board: TodoBoard.Board) returns (outcome: SubmitOutcome)
      ensures outcome == SubmitCheck(board.newTodo, showCustomInput, customFileFormat)
    {
      if Trim(board.newTodo.title) == "" {
        return NeedTitle;
      }
      if board.newTodo.date == "" {
        return NeedDate;
      }
      if Trim(board.newTodo.content) == "" {
        return NeedContent;
      }
      if showCustomInput && Trim(customFileFormat) == "" {
        return NeedFormat;
      }
      return Added;
    }
  }

  /** A form that passes the checks reaches the board's request with a
      title and a description, and, when the custom format was used, with
      a format. */
  lemma AddedRequestIsComplete(form: TodoForm, showCustomInput: bool, customFileFormat: string,
                               catId: Scalar, teamId: Scalar)
    requires SubmitCheck(form, showCustomInput, customFileFormat) == Added
    requires showCustomInput ==> form.fileForm == customFileFormat
    ensures TodoBoard.AddTodoRequest(form, catId, teamId).todoTitle != ""
    ensures TodoBoard.AddTodoRequest(form, catId, teamId).todoDes != ""
    ensures TodoBoard.AddTodoRequest(form, catId, teamId).dueDate != ""
    ensures showCustomInput ==> TodoBoard.AddTodoRequest(form, catId, teamId).fileForm != ""
  {
  }
}
