/**
 * The category board of a team: the translucent background of a category,
 * the normalisation of the by-category response, the join of categories
 * with their to-dos, member names, the permission checks the board makes
 * before a request, and the body of the add-to-do request. The board's
 * `generateCategoryColor` is the same code as the calendar's and is modelled
 * once, as `TodoCalendar.GenerateCategoryColor`.
 */
module TodoBoard {
  import opened JsCore
  import opened ColorHash
  import opened Records
  import TodoCalendar
  import TodoCard

  // ---------------------------------------------------------------------
  // Background colours

  const DefaultBackground: string := "rgba(0,123,255,0.10)"

  /** `formatBGColor(color)`; the empty string is the one falsy string. */
  function FormatBGColor(color: string): (r: string)
    ensures color == "" ==> r == DefaultBackground
    ensures color != "" && StartsWith(color, "#") ==> r == color + "22"
    ensures color != "" && !StartsWith(color, "#") && StartsWith(color, "hsl") ==>
      r == ReplaceFirst(ReplaceFirst(color, "hsl(", "hsla("), ")", ", 0.13)")
    ensures color != "" && !StartsWith(color, "#") && !StartsWith(color, "hsl") ==> r == color
  {
    if color == "" then DefaultBackground
    else if StartsWith(color, "#") then color + "22"
    else if StartsWith(color, "hsl") then ReplaceFirst(ReplaceFirst(color, "hsl(", "hsla("), ")", ", 0.13)")
    else color
  }

  /** `getBGColor(catId, catColor)`: the server colour unless it is missing
      or a placeholder, else the generated one. */
  function GetBGColor(catId: Scalar, catColor: Option<string>): (r: string)
    ensures catColor.Some? && TodoCalendar.UsableServerColor(catColor.value) ==> r == FormatBGColor(catColor.value)
    ensures !(catColor.Some? && TodoCalendar.UsableServerColor(catColor.value)) ==>
      r == FormatBGColor(TodoCalendar.CategoryColor(catId))
  {
    if catColor.Some? && TodoCalendar.UsableServerColor(catColor.value) then FormatBGColor(catColor.value)
    else FormatBGColor(TodoCalendar.CategoryColor(catId))
  }

  /** The first `hsl(` of a text that starts with it is its start. */
  lemma ReplaceHslPrefix(rest: string)
    ensures ReplaceFirst("hsl(" + rest, "hsl(", "hsla(") == "hsla(" + rest
  {
    var t := "hsl(" + rest;
    assert t[0..4] == "hsl(";
    assert IndexOfFrom(t, "hsl(", 0) == Some(0);
    assert t[4..] == rest;
  }

  /** The only `)` of `body + ")"` is its last character. */
  lemma ReplaceClosingParen(body: string)
    requires ')' !in body
    ensures ReplaceFirst(body + ")", ")", ", 0.13)") == body + ", 0.13)"
  {
    var u := body + ")";
    assert u[|u| - 1..|u|] == ")";
    assert Occurs(u, ")", |u| - 1);
    forall j | 0 <= j < |u| - 1
      ensures !Occurs(u, ")", j)
    {
      assert u[j] == body[j];
      assert u[j..j + 1] == [u[j]];
    }
    assert IndexOfFrom(u, ")", 0) == Some(|u| - 1);
    assert u[..|u| - 1] == body;
    assert u[|u|..] == [];
  }

  lemma NoCloseParenInNumber(n: int)
    ensures ')' !in IntToString(n)
  {
    var d := NatToString(if n < 0 then -n else n);
    assert forall i :: 0 <= i < |d| ==> IsDigit(d[i]);
    if n < 0 {
      assert IntToString(n) == "-" + d;
    }
  }

  /** `hsl(<body>)` with no `)` inside becomes `hsla(<body>, 0.13)`. */
  lemma HslaOf(body: string)
    requires ')' !in body
    ensures FormatBGColor("hsl(" + body + ")") == "hsla(" + body + ", 0.13)"
  {
    var t := "hsl(" + body + ")";
    assert t[..1] == "h" && t[..3] == "hsl";
    assert t == "hsl(" + (body + ")");
    ReplaceHslPrefix(body + ")");
    assert "hsla(" + (body + ")") == ("hsla(" + body) + ")";
    ReplaceClosingParen("hsla(" + body);
  }

  /** The colour template is `hsl(`, the three values, then `)`. */
  lemma HslTextBody(h: string, s: string, l: string)
    ensures HslFromTexts(h, s, l) == "hsl(" + (h + ", " + s + "%, " + l + "%") + ")"
  {
    assert "%" + ")" == "%)";
  }

  /** The same values with the alpha appended. */
  lemma HslaTextBody(h: string, s: string, l: string)
    ensures "hsla(" + (h + ", " + s + "%, " + l + "%") + ", 0.13)" == "hsla(" + h + ", " + s + "%, " + l + "%, 0.13)"
  {
    assert "%" + ", 0.13)" == "%, 0.13)";
  }

  /** An `hsl(..)` text whose values hold no `)` becomes the same colour at
      13% opacity. */
  lemma HslBecomesHsla(h: string, s: string, l: string)
    requires ')' !in h && ')' !in s && ')' !in l
    ensures FormatBGColor(HslFromTexts(h, s, l)) == "hsla(" + h + ", " + s + "%, " + l + "%, 0.13)"
  {
    var body := h + ", " + s + "%, " + l + "%";
    assert ')' !in body;
    HslTextBody(h, s, l);
    HslaOf(body);
    HslaTextBody(h, s, l);
  }

  /** The background of a category with an id and no usable server colour
      is its generated hue, saturation and lightness at 13% opacity. */
  lemma GeneratedBackground(catId: Scalar, catColor: Option<string>)
    requires Truthy(catId)
    requires !(catColor.Some? && TodoCalendar.UsableServerColor(catColor.value))
    ensures var c := TodoCalendar.CategoryHsl(WrappedHash(Utf16(ToStr(catId))));
      GetBGColor(catId, catColor) == "hsla(" + IntToString(c.hue) + ", " + IntToString(c.saturation)
        + "%, " + IntToString(c.lightness) + "%, 0.13)"
  {
    var c := TodoCalendar.CategoryHsl(WrappedHash(Utf16(ToStr(catId))));
    NoCloseParenInNumber(c.hue);
    NoCloseParenInNumber(c.saturation);
    NoCloseParenInNumber(c.lightness);
    HslBecomesHsla(IntToString(c.hue), IntToString(c.saturation), IntToString(c.lightness));
  }

  /** A usable hex server colour gets the alpha suffix. */
  lemma HexBackground(catId: Scalar, hex: string)
    requires TodoCalendar.UsableServerColor(hex) && StartsWith(hex, "#")
    ensures GetBGColor(catId, Some(hex)) == hex + "22"
  {
  }

  // ---------------------------------------------------------------------
  // fetchTodosByCategory normalisation

  /** The three fields the board fills in from their snake_case spellings. */
  function NormalizeTodo(t: Todo): (r: Todo)
    ensures !r.fileForm.Undef? && !r.fileForm.Null?
    ensures !r.uploadedFilePath.Undef? && !r.uploadedFileName.Undef?
    ensures !(t.fileForm.Undef? || t.fileForm.Null?) ==> r.fileForm == t.fileForm
    ensures (t.fileForm.Undef? || t.fileForm.Null?) && !(t.file_form.Undef? || t.file_form.Null?) ==>
      r.fileForm == t.file_form
    ensures r.(fileForm := t.fileForm, uploadedFilePath := t.uploadedFilePath,
               uploadedFileName := t.uploadedFileName) == t
  {
    t.(fileForm := Coalesce(Coalesce(t.fileForm, t.file_form), Str("")),
       uploadedFilePath := Coalesce(Coalesce(t.uploadedFilePath, t.uploaded_file_path), Null),
       uploadedFileName := Coalesce(Coalesce(t.uploadedFileName, t.uploaded_file_name), Null))
  }

  function NormalizeTodos(ts: seq<Todo>): (r: seq<Todo>)
    ensures |r| == |ts|
    ensures forall i :: 0 <= i < |ts| ==> r[i] == NormalizeTodo(ts[i])
  {
    seq(|ts|, i requires 0 <= i < |ts| => NormalizeTodo(ts[i]))
  }

  /** `{ ...categoryTodo, todos: categoryTodo.todos?.map(..) || [] }` */
  function NormalizeCategory(c: Category): (r: Category)
    ensures r.todos.Some?
    ensures c.todos.None? ==> r.todos.value == []
    ensures c.todos.Some? ==> r.todos.value == NormalizeTodos(c.todos.value)
    ensures r.(todos := c.todos) == c
  {
    c.(todos := Some(if c.todos.Some? then NormalizeTodos(c.todos.value) else []))
  }

  function NormalizeResponse(data: seq<Category>): (r: seq<Category>)
    ensures |r| == |data|
    ensures forall i :: 0 <= i < |data| ==> r[i] == NormalizeCategory(data[i])
  {
    seq(|data|, i requires 0 <= i < |data| => NormalizeCategory(data[i]))
  }

  /** Normalising an already normalised response changes nothing. */
  lemma NormalizeIdempotent(data: seq<Category>)
    ensures NormalizeResponse(NormalizeResponse(data)) == NormalizeResponse(data)
  {
    var once := NormalizeResponse(data);
    forall i | 0 <= i < |data|
      ensures NormalizeCategory(once[i]) == once[i]
    {
      var ts := once[i].todos.value;
      assert NormalizeTodos(ts) == ts;
    }
  }

  // ---------------------------------------------------------------------
  // combinedCategoryData

  datatype CombinedCategory = CombinedCategory(catId: Scalar, categoryName: Scalar,
                                               catColor: Option<string>, todos: seq<Todo>)

  /** `Array.isArray(categoryWithTodos?.todos) ? categoryWithTodos.todos : []` */
  function TodosOf(entry: Option<Category>): seq<Todo> {
    if entry.Some? && entry.value.todos.Some? then entry.value.todos.value else []
  }

  function CombineOne(category: Category, categoryTodos: seq<Category>): CombinedCategory {
    CombinedCategory(category.catId, category.catName, category.catColor,
                     TodosOf(TodoCalendar.FindCategory(categoryTodos, category.catId)))
  }

  /** `combinedCategoryData`; `None` is an input that is not an array. */
  function CombinedCategoryData(categories: Option<seq<Category>>, categoryTodos: Option<seq<Category>>)
    : (r: seq<CombinedCategory>)
    ensures categories.None? || categoryTodos.None? ==> r == []
    ensures categories.Some? && categoryTodos.Some? ==>
      |r| == |categories.value|
      && forall i :: 0 <= i < |r| ==>
        r[i].catId == categories.value[i].catId
        && r[i].categoryName == categories.value[i].catName
        && r[i].catColor == categories.value[i].catColor
        && r[i].todos == TodosOf(TodoCalendar.FindCategory(categoryTodos.value, categories.value[i].catId))
  {
    if categories.None? || categoryTodos.None? then []
    else
      var cs := categories.value;
      seq(|cs|, i requires 0 <= i < |cs| => CombineOne(cs[i], categoryTodos.value))
  }

  /** Every to-do on the board came from the by-category entry of the same
      category, and a category without such an entry shows no to-dos. */
  lemma CombinedTodosComeFromServer(categories: seq<Category>, categoryTodos: seq<Category>, i: int)
    requires 0 <= i < |categories|
    ensures var r := CombinedCategoryData(Some(categories), Some(categoryTodos));
      (r[i].todos != [] ==> exists ct :: ct in categoryTodos && StrictEq(ct.catId, categories[i].catId)
                                         && ct.todos == Some(r[i].todos))
      && ((forall ct :: ct in categoryTodos ==> !StrictEq(ct.catId, categories[i].catId)) ==> r[i].todos == [])
  {
    var m := TodoCalendar.FindCategory(categoryTodos, categories[i].catId);
    if m.Some? {
      assert m.value in categoryTodos;
    }
  }

  // ---------------------------------------------------------------------
  // getMemberName

  const Unassigned: string := "미지정"

  /** The argument of `getMemberName`: an array of ids, or one id. */
  datatype IdArg = Many(ids: seq<Scalar>) | One(id: Scalar)

  /** `teamMembers.find(m => m.userId === Number(id))` */
  function FindMember(members: seq<Member>, id: Scalar): (r: Option<Member>)
    ensures r.Some? ==> r.value in members && StrictEq(r.value.userId, ToNumber(id))
    ensures r.None? ==> forall m :: m in members ==> !StrictEq(m.userId, ToNumber(id))
  {
    if members == [] then None
    else if StrictEq(members[0].userId, ToNumber(id)) then Some(members[0])
    else FindMember(members[1..], id)
  }

  /** The name pushed for one id. */
  function NameOf(id: Scalar, members: seq<Member>): string {
    var m := FindMember(members, id);
    if m.Some? then m.value.userName else Unassigned
  }

  function IdsOf(arg: IdArg): seq<Scalar> {
    match arg
    case Many(ids) => ids
    case One(id) => [id]
  }

  /** What `getMemberName` returns. */
  function MemberNameText(arg: IdArg, members: seq<Member>): string {
    var ids := IdsOf(arg);
    if |ids| == 0 || (|ids| == 1 && !Truthy(ids[0])) then Unassigned
    else Join(seq(|ids|, i requires 0 <= i < |ids| => NameOf(ids[i], members)), ", ")
  }

  /** `getMemberName(idOrArray)`: one name per id, pushed in a `forEach`. */
  method GetMemberName(arg: IdArg, members: seq<Member>) returns (text: string)
    ensures text == MemberNameText(arg, members)
  {
    var ids := match arg case Many(xs) => xs case One(x) => [x];
    if |ids| == 0 || (|ids| == 1 && !Truthy(ids[0])) {
      return Unassigned;
    }
    var memberNames: seq<string> := [];
    var i := 0;
    while i < |ids|
      invariant 0 <= i <= |ids|
      invariant |memberNames| == i
      invariant forall j :: 0 <= j < i ==> memberNames[j] == NameOf(ids[j], members)
    {
      var member := FindMember(members, ids[i]);
      memberNames := memberNames + [if member.Some? then member.value.userName else Unassigned];
      i := i + 1;
    }
    assert memberNames == seq(|ids|, j requires 0 <= j < |ids| => NameOf(ids[j], members));
    text := Join(memberNames, ", ");
  }

  /** A single id names its member; an unknown id, or a member whose id the
      server sent as text, is rendered as unassigned. */
  lemma MemberNames(id: Scalar, members: seq<Member>)
    requires Truthy(id)
    ensures FindMember(members, id).Some? ==>
      MemberNameText(One(id), members) == FindMember(members, id).value.userName
    ensures (forall m :: m in members ==> m.userId.Str?) ==> MemberNameText(One(id), members) == Unassigned
    ensures MemberNameText(Many([]), members) == Unassigned
  {
    var names := seq(1, i requires 0 <= i < 1 => NameOf([id][i], members));
    assert names == [NameOf(id, members)];
  }

  // ---------------------------------------------------------------------
  // Permission checks before a request

  /** The to-dos of the board in category order: `flatMap(cat => cat.todos)`. */
  function AllTodos(data: seq<CombinedCategory>): (r: seq<Todo>)
    ensures forall t :: t in r <==> exists c :: c in data && t in c.todos
  {
    if data == [] then []
    else
      var rest := AllTodos(data[1..]);
      assert forall c :: c in data[1..] ==> c in data;
      assert forall c :: c in data ==> c == data[0] || c in data[1..];
      data[0].todos + rest
  }

  /** `.find(t => t.todoId === todoId)` */
  function FindTodo(todos: seq<Todo>, todoId: Scalar): (r: Option<Todo>)
    ensures r.Some? ==> r.value in todos && StrictEq(r.value.todoId, todoId)
    ensures r.None? ==> forall t :: t in todos ==> !StrictEq(t.todoId, todoId)
  {
    if todos == [] then None
    else if StrictEq(todos[0].todoId, todoId) then Some(todos[0])
    else FindTodo(todos[1..], todoId)
  }

  /** The check rule of `toggleTodoChecked`: with no assignees the creator,
      otherwise an assignee. */
  predicate CanCheck(t: Todo, userId: Scalar) {
    if t.assignees.None? || |t.assignees.value| == 0 then NumEq(userId, t.creatorId)
    else exists id :: id in t.assignees.value && NumEq(id, userId)
  }

  /** Whether `toggleTodoChecked` sends its request: a to-do that is not on
      the board is not checked at all. */
  function ToggleAllowed(data: seq<CombinedCategory>, todoId: Scalar, userId: Scalar): (ok: bool)
    ensures FindTodo(AllTodos(data), todoId).None? ==> ok
    ensures FindTodo(AllTodos(data), todoId).Some? ==> (ok <==> CanCheck(FindTodo(AllTodos(data), todoId).value, userId))
  {
    var t := FindTodo(AllTodos(data), todoId);
    t.None? || CanCheck(t.value, userId)
  }

  /** Whether `handleDeleteTodo` sends its request. */
  function DeleteAllowed(data: seq<CombinedCategory>, todoId: Scalar, userId: Scalar): (ok: bool)
    ensures FindTodo(AllTodos(data), todoId).None? ==> ok
    ensures FindTodo(AllTodos(data), todoId).Some? ==> (ok <==> NumEq(userId, FindTodo(AllTodos(data), todoId).value.creatorId))
  {
    var t := FindTodo(AllTodos(data), todoId);
    t.None? || NumEq(userId, t.value.creatorId)
  }

  /** Whoever may check a to-do, with both ids present, may also edit it on
      its card; whoever may delete it on the card passes the board's check. */
  lemma BoardAndCardAgree(t: Todo, userId: Scalar)
    ensures Truthy(userId) && Truthy(t.creatorId) && CanCheck(t, userId) ==> TodoCard.CanEditTodo(t, userId)
    ensures TodoCard.CanDeleteTodo(t, userId) ==> NumEq(userId, t.creatorId)
  {
    if Truthy(userId) && Truthy(t.creatorId) && CanCheck(t, userId) {
      if !(t.assignees.None? || |t.assignees.value| == 0) {
        var id :| id in t.assignees.value && NumEq(id, userId);
        assert NumEq(id, userId) ==> NumEq(userId, id);
        assert TodoCard.AssigneeNumEq(t, userId);
      }
    }
  }

  /** The board's own check is looser than the card's: with no stored user
      and no creator, `Number(null) === Number(null)` lets the delete
      through, where the card refuses it. */
  lemma BoardLetsMissingIdsDelete(t: Todo)
    requires t.creatorId == Null
    ensures NumEq(Null, t.creatorId) && !TodoCard.CanDeleteTodo(t, Null)
  {
  }

  // ---------------------------------------------------------------------
  // handleAddTodo request body

  datatype AddTodoBody = AddTodoBody(catId: Scalar, teamId: Scalar, assigneeIds: seq<Scalar>,
                                     todoTitle: string, todoDes: string, dueDate: string,
                                     fileForm: string)

  /** The request body of `handleAddTodo`. */
  function AddTodoRequest(form: TodoForm, catId: Scalar, teamId: Scalar): (b: AddTodoBody)
    ensures b.catId == catId && b.teamId == teamId && b.dueDate == form.date
    ensures |b.assigneeIds| == |form.assignees|
    ensures forall i :: 0 <= i < |form.assignees| ==> b.assigneeIds[i] == ToNumber(Str(form.assignees[i]))
    ensures b.todoTitle == Trim(form.title) && b.todoDes == Trim(form.content)
    ensures b.fileForm == Trim(form.fileForm)
  {
    var assigneeIds := if |form.assignees| > 0
      then seq(|form.assignees|, i requires 0 <= i < |form.assignees| => ToNumber(Str(form.assignees[i])))
      else [];
    var fileFormValue := if form.fileForm != "" && Trim(form.fileForm) != "" then Trim(form.fileForm) else "";
    assert form.fileForm == "" ==> Trim(form.fileForm) == "";
    AddTodoBody(catId, teamId, assigneeIds, Trim(form.title), Trim(form.content), form.date, fileFormValue)
  }

  /** Assignees chosen in the popup are `String(userId)` of numeric member
      ids, and the body carries those ids back as numbers. */
  lemma AssigneeIdsRoundTrip(form: TodoForm, ids: seq<int>, catId: Scalar, teamId: Scalar)
    requires |ids| == |form.assignees|
    requires forall i :: 0 <= i < |ids| ==> form.assignees[i] == IntToString(ids[i])
    ensures forall i :: 0 <= i < |ids| ==> AddTodoRequest(form, catId, teamId).assigneeIds[i] == Num(ids[i])
  {
    forall i | 0 <= i < |ids|
      ensures ToNumber(Str(form.assignees[i])) == Num(ids[i])
    {
      NumberOfString(ids[i]);
    }
  }

  /** A blank format or title is sent as the empty string. */
  lemma BlankFieldsSentEmpty(form: TodoForm, catId: Scalar, teamId: Scalar)
    requires forall i :: 0 <= i < |form.fileForm| ==> IsJsWhitespace(form.fileForm[i])
    ensures AddTodoRequest(form, catId, teamId).fileForm == ""
  {
    TrimEmptyIffBlank(form.fileForm);
  }

  /** The board state that the add popup works on. */
  class Board {
    var popupCatId: Scalar
    var newTodo: TodoForm

    constructor()
      ensures popupCatId == Null && newTodo == EmptyForm
    {
      popupCatId := Null;
      newTodo := EmptyForm;
    }

    /** `handleOpenPopup(catId)`: a fresh form for that category. */
    method HandleOpenPopup(catId: Scalar)
      modifies this
      ensures popupCatId == catId && newTodo == EmptyForm
    {
      popupCatId := catId;
      newTodo := EmptyForm;
    }

    /** `handleClosePopup()` */
    method HandleClosePopup()
      modifies this
      ensures popupCatId == Null && newTodo == old(newTodo)
    {
      popupCatId := Null;
    }

    /** The add popup's `onChange` is `setNewTodo`. */
    method SetNewTodo(form: TodoForm)
      modifies this
      ensures newTodo == form && popupCatId == old(popupCatId)
    {
      newTodo := form;
    }
  }
}
