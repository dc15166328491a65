/**
 * The edit popup. It owns no form state: every edit builds a new form
 * with a spread and hands it to the board's `setEditTodo`. Its field edit,
 * assignee toggle, highlight and summary are those of the add popup; what
 * differs is the format select, which stores "기타" as it is, and the form
 * it starts from, which the board builds from the to-do.
 */
module EditTodoPopup {
  import opened JsCore
  import opened Records
  import opened AddTodoPopup

  /** `v || ''` for a field shown in a text input. The form holds text, so
      a truthy value that is not a string is held as its `String` form,
      which is what the input shows. */
  function TextOr(v: Scalar): (t: string)
    ensures !Truthy(v) ==> t == ""
    ensures Truthy(v) && v.Str? ==> t == v.s
  {
    if Truthy(v) then ToStr(v) else ""
  }

  /** The board's `handleEditTodo`: the form the popup opens with, the
      assignee ids turned into their texts. */
  function OpenedForm(todo: Todo): (f: TodoForm)
    ensures todo.assignees.None? ==> f.assignees == []
    ensures todo.assignees.Some? ==>
      |f.assignees| == |todo.assignees.value|
      && forall i :: 0 <= i < |f.assignees| ==> f.assignees[i] == ToStr(todo.assignees.value[i])
  {
    var ids := if todo.assignees.Some? then todo.assignees.value else [];
    TodoForm(TextOr(todo.todoTitle), TextOr(todo.todoDes), TextOr(todo.dueDate), TextOr(todo.fileForm),
             seq(|ids|, i requires 0 <= i < |ids| => ToStr(ids[i])))
  }

  /** A member is highlighted in the opened popup exactly when the to-do
      lists an id with the same text, whether stored as a number or as a
      string. */
  lemma OpenedHighlight(todo: Todo, m: Member)
    ensures IsSelected(OpenedForm(todo), m) <==>
      todo.assignees.Some? && exists id :: id in todo.assignees.value && StrEq(id, m.userId)
  {
    var f := OpenedForm(todo);
    if IsSelected(f, m) {
      var i :| 0 <= i < |f.assignees| && f.assignees[i] == ToStr(m.userId);
      assert todo.assignees.value[i] in todo.assignees.value;
    }
    if todo.assignees.Some? && exists id :: id in todo.assignees.value && StrEq(id, m.userId) {
      var id :| id in todo.assignees.value && StrEq(id, m.userId);
      var i :| 0 <= i < |todo.assignees.value| && todo.assignees.value[i] == id;
      assert f.assignees[i] == ToStr(m.userId);
    }
  }

  /** `handleChange` on the format select stores "기타" itself, where the
      add popup stores an empty format and shows its custom input. */
  lemma OtherStoredLiterally(form: TodoForm)
    ensures SetField(form, FileFormField, Other).fileForm == "기타"
    ensures SetField(form, FileFormField, Other).assignees == form.assignees
  {
  }

  /** `handleAssigneeToggle` as the edit popup writes it: the form with the
      assignees toggled. */
  function EditToggle(form: TodoForm, userId: string): (r: TodoForm)
    ensures r.title == form.title && r.content == form.content && r.date == form.date
    ensures r.fileForm == form.fileForm
    ensures userId in r.assignees <==> userId !in form.assignees
  {
    form.(assignees := ToggleAssignee(form.assignees, userId))
  }

  /** Toggling a member of an opened to-do twice, when the member was not
      an assignee, opens the same form again. */
  lemma ToggleNewMemberTwice(todo: Todo, m: Member)
    requires !(todo.assignees.Some? && exists id :: id in todo.assignees.value && StrEq(id, m.userId))
    ensures EditToggle(EditToggle(OpenedForm(todo), ToStr(m.userId)), ToStr(m.userId)) == OpenedForm(todo)
  {
    OpenedHighlight(todo, m);
    ToggleTwiceRestores(OpenedForm(todo).assignees, ToStr(m.userId));
  }

  /** The summary of an opened to-do names one member per assignee when
      every assignee's text is the id text of a named member. */
  lemma OpenedSummaryCountsAssignees(todo: Todo, members: seq<Member>)
    requires todo.assignees.Some? && todo.assignees.value != []
    requires forall i :: 0 <= i < |todo.assignees.value| ==>
      FindByText(members, ToStr(todo.assignees.value[i])).Some?
      && FindByText(members, ToStr(todo.assignees.value[i])).value.userName != ""
    ensures AssigneeSummary(OpenedForm(todo).assignees, members)
      == Join(KnownNames(OpenedForm(todo).assignees, members), ", ")
    ensures |KnownNames(OpenedForm(todo).assignees, members)| == |todo.assignees.value|
  {
    AllKnownNamesListed(OpenedForm(todo).assignees, members);
  }
}
