/**
 * The records the server sends and the components pass around. Ids and
 * most fields are loose JavaScript values (`Scalar`), because the
 * components compare them both with `===` and through `Number(..)` or
 * `String(..)`. Several fields appear under two spellings on the wire
 * (`fileForm` and `file_form`, ...); both are kept.
 */
module Records {
  import opened JsCore

  datatype Todo = Todo(
    todoId: Scalar,
    todoTitle: Scalar,
    todoDes: Scalar,
    dueDate: Scalar,
    todoChecked: Scalar,
    creatorId: Scalar,
    /** `None` when the field is missing or null. */
    assignees: Option<seq<Scalar>>,
    fileForm: Scalar,
    file_form: Scalar,
    uploadedFilePath: Scalar,
    uploaded_file_path: Scalar,
    uploadedFileName: Scalar,
    uploaded_file_name: Scalar,
    fileName: Scalar,
    file_name: Scalar,
    filePath: Scalar,
    file_path: Scalar,
    fileUrl: Scalar)

  datatype Category = Category(
    catId: Scalar,
    catName: Scalar,
    /** `None` when the server sends no colour. */
    catColor: Option<string>,
    /** `None` when `todos` is missing, `null` or `undefined`. Any other
        value that is not an array is not represented: `false`, `0` and `""`
        make the board's `todos?.map` throw, and a truthy non-array makes
        `.map` and `.forEach` throw. */
    todos: Option<seq<Todo>>)

  datatype Notice = Notice(noticeId: Scalar, isRead: bool, content: string)

  datatype Member = Member(userId: Scalar, userName: string, manager: Scalar)

  /** The new-to-do form the board owns and the add popup edits: select
      values are strings, so assignees are the `String(userId)` of members. */
  datatype TodoForm = TodoForm(title: string, content: string, date: string,
                               fileForm: string, assignees: seq<string>)

  /** `{ title: '', content: '', date: '', fileForm: '', assignees: [] }` */
  const EmptyForm := TodoForm("", "", "", "", [])

  /** A frame of the notification socket: `JSON.parse` failed, or a message
      with the three fields the components read. */
  datatype CountFrame = Unparsable | CountMessage(kind: Scalar, userId: Scalar, unreadCount: Scalar)

  /** `message.type === 'NOTIFICATION_COUNT_UPDATED' && message.userId === userId` */
  predicate CountUpdateFor(f: CountFrame, userId: Scalar) {
    f.CountMessage? && StrictEq(f.kind, Str("NOTIFICATION_COUNT_UPDATED")) && StrictEq(f.userId, userId)
  }
}
