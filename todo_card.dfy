/**
 * The permission rules of a to-do card. Ids are compared after `Number(..)`,
 * so a numeric id and its decimal text are the same user, and an id that is
 * not a number matches nobody (`NaN === NaN` is false).
 */
module TodoCard {
  import opened JsCore
  import opened Records

  /** `todo.assignees.some(id => Number(id) === Number(userId))` */
  predicate AssigneeNumEq(todo: Todo, userId: Scalar) {
    todo.assignees.Some? && exists id :: id in todo.assignees.value && NumEq(id, userId)
  }

  /** `canEditTodo()`: the creator or an assignee, both ids present. */
  predicate CanEditTodo(todo: Todo, userId: Scalar) {
    Truthy(userId) && Truthy(todo.creatorId)
    && (NumEq(userId, todo.creatorId) || AssigneeNumEq(todo, userId))
  }

  /** `canDeleteTodo()`: the creator only, both ids present. */
  predicate CanDeleteTodo(todo: Todo, userId: Scalar) {
    Truthy(userId) && Truthy(todo.creatorId) && NumEq(userId, todo.creatorId)
  }

  /** What a click on the card's menu leads to. */
  datatype CardAction = Refused | Edit(todo: Todo) | Delete(todoId: Scalar) | Kept

  /** `handleEdit`: an alert unless editing is permitted, else `onEdit(todo)`. */
  function HandleEdit(todo: Todo, userId: Scalar): (a: CardAction)
    ensures a.Edit? <==> CanEditTodo(todo, userId)
    ensures a.Edit? ==> a.todo == todo
    ensures !a.Edit? ==> a.Refused?
  {
    if !CanEditTodo(todo, userId) then Refused else Edit(todo)
  }

  /** `handleDelete`: an alert unless deleting is permitted, then
      `onDelete(todo.todoId)` only when the user confirms. */
  function HandleDelete(todo: Todo, userId: Scalar, confirmed: bool): (a: CardAction)
    ensures a.Delete? <==> CanDeleteTodo(todo, userId) && confirmed
    ensures a.Delete? ==> a.todoId == todo.todoId
    ensures a.Refused? <==> !CanDeleteTodo(todo, userId)
    ensures a == Kept <==> CanDeleteTodo(todo, userId) && !confirmed
  {
    if !CanDeleteTodo(todo, userId) then Refused
    else if confirmed then Delete(todo.todoId)
    else Kept
  }

  /** The checkbox is rendered `disabled`, so its `onChange` never reaches
      `onToggleChecked`: the toggle the card requests is always none. */
  function CheckboxToggle(todo: Todo, checked: bool, disabled: bool): (r: Option<(Scalar, bool)>)
    ensures disabled ==> r.None?
    ensures !disabled ==> r == Some((todo.todoId, checked))
  {
    if disabled then None else Some((todo.todoId, checked))
  }

  /** The card renders the checkbox with `disabled={true}`. */
  const CheckboxDisabled := true

  /** Whoever may delete may also edit. */
  lemma DeleteImpliesEdit(todo: Todo, userId: Scalar)
    ensures CanDeleteTodo(todo, userId) ==> CanEditTodo(todo, userId)
    ensures HandleDelete(todo, userId, true).Delete? ==> HandleEdit(todo, userId).Edit?
  {
  }

  /** Missing ids permit nothing, whatever the assignees. */
  lemma FalsyIdsPermitNothing(todo: Todo, userId: Scalar)
    requires !Truthy(userId) || !Truthy(todo.creatorId)
    ensures !CanEditTodo(todo, userId) && !CanDeleteTodo(todo, userId)
  {
  }

  /** A non-numeric user id matches neither the creator nor any assignee,
      even when the texts are identical. */
  lemma NonNumericIdPermitsNothing(todo: Todo, s: string)
    requires ToNumber(Str(s)).NaN?
    ensures !CanEditTodo(todo, Str(s)) && !CanDeleteTodo(todo, Str(s))
  {
  }

  /** A numeric creator id and its decimal text name the same user. */
  lemma CreatorTextIsCreator(todo: Todo, n: int)
    requires n != 0 && todo.creatorId == Num(n)
    ensures CanDeleteTodo(todo, Str(IntToString(n))) && CanEditTodo(todo, Str(IntToString(n)))
  {
    NumberOfString(n);
  }

  /** The card never toggles a to-do itself. */
  lemma CardNeverToggles(todo: Todo, checked: bool)
    ensures CheckboxToggle(todo, checked, CheckboxDisabled).None?
  {
  }
}
