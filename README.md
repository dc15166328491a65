# GENAU front-end logic in Dafny

GENAU is a team to-do service: teams, categories of to-dos on a board and in a
calendar, assignees, file submission with format conversion, notifications and
a weekly overview. This project models the decision logic of its React
front end: who may edit, delete, tick or upload; how category colours are
derived from ids; how server responses and push messages are folded into
the cached to-do lists; how the popups validate their forms; and how the
sidebar's push socket reconnects and is torn down.

Each source file of the core is one module:

| module | source |
|---|---|
| `JsCore` | the JavaScript built-ins the components lean on: dynamic values (`Scalar`), `===`, `==` on ids, `String()`, `Number()`, `trim`, UTF-16 length, case mapping, `split`/`join`, 32-bit `<<`, `>>`, `hash & hash` and `%` |
| `Records` | the to-do, category, member and notice records the server sends |
| `ColorHash` | the 31-polynomial string hash written out in several components, wrapped to 32 bits or left unwrapped |
| `TodoCalendar` | `components/TodoCalendar/TodoCalendar.jsx` |
| `ColorUtils` | `utils/colorUtils.jsx` |
| `MainPage` | `pages/Main/Main.jsx` |
| `SidebarProfile` | `components/SidebarProfile/SidebarProfile.jsx` |
| `NotificationPanel` | `components/Notification/NotificationPanel.jsx` |
| `TodoCard` | `components/TodoCard/TodoCard.jsx` |
| `TodoBoard` | `components/TodoBoard/TodoBoard.jsx` |
| `DetailTodoPopup` | `components/TodoPopup/DetailTodoPopup.jsx` |
| `MainTodoPopup` | `components/TodoPopup/MainTodoPopup.jsx` |
| `AddTodoPopup` | `components/TodoPopup/AddTodoPopup.jsx` |
| `EditTodoPopup` | `components/TodoPopup/EditTodoPopup.jsx` and the edit form prepared in `TodoBoard.jsx` |
| `TeamSpace` | `components/TeamSpace/TeamSpace.jsx` |
| `ChangePasswordPopup` | `components/Popup/ChangePasswordPopup.jsx` |
| `ChangeNamePopup` | `components/Popup/ChangeNamePopup.jsx` |
| `TeamProfilePopup` | `components/Popup/TeamProfilePopup.jsx` |
| `ServiceIntro` | `pages/ServiceIntro/ServiceIntro.jsx` |

Pure helpers (colour generation, filters, permission checks, response
normalisation) are functions with lemmas. Component state that handlers
update (`useState`, `useRef`, the react-query cache entries a component
writes) is a class whose methods are the handlers, each with a `modifies`
clause and a postcondition giving the whole new state. The loops of the
source (the hash loops, the calendar's grouping by date, the conversion
requests of the detail popup, the manager-first sort) are methods with
loop invariants, proved against the functions that specify them.

The sidebar's push socket is modelled as a sequence of events (mount,
open, message, error, close, timer, unmount, count fetched) over the
sockets created, the `close` events already delivered and the timers
pending. As in a browser, a socket that fails is CLOSED before its `error`
event fires, and its one `close` event follows. `SidebarProfile.Step` is the code
as written; `SidebarProfile.StepFixed` is the teardown that also detaches
`onclose`, and the `SidebarSocket` class follows `StepFixed`.

Teardown is evidently meant to cancel any pending reconnect and to leave
at most one connection. The code does not do that, and the model follows
the code: an error and then a close of
the same socket each schedule a reconnect, whether the socket was still
connecting or already open (`SidebarProfile.OpenSocketFailsTwice`), only the later timer is
cancelled on teardown (`SidebarProfile.TwoReconnectsOneCancelled`), and a
close arriving after teardown still reconnects
(`SidebarProfile.ReconnectsAfterUnmount`).

## Model

All source paths are under `frontend/src/`.

| member | source | states |
|---|---|---|
| ColorHash.WrappedHash | frontend/src/components/TodoCalendar/TodoCalendar.jsx:32-38 | the hash with `hash = hash & hash` after each step always lies in the signed 32-bit range |
| ColorHash.ComputeWrappedHash | frontend/src/components/TodoCalendar/TodoCalendar.jsx:32-38 | the loop over the code units computes exactly the wrapped hash |
| ColorHash.WrappedHashIsPoly31 | frontend/src/components/TodoCalendar/TodoCalendar.jsx:32-38 | `(h << 5) - h + c` wrapped each step equals the base-31 polynomial of the code units wrapped once to 32 bits |
| ColorHash.ComputeUnwrappedHash | frontend/src/utils/colorUtils.jsx:4-8 | the loop without `hash = hash & hash` computes the unwrapped hash |
| ColorHash.UnwrappedHashAgreesModulo | frontend/src/utils/colorUtils.jsx:4-8 | the unwrapped hash wrapped to 32 bits at the end equals the wrapped hash |
| ColorHash.UnwrappedHashMagnitude | frontend/src/utils/colorUtils.jsx:4-8 | for UTF-16 code units the unwrapped hash grows at most by 2^32 per character |
| ColorHash.HslShape | frontend/src/components/TodoCalendar/TodoCalendar.jsx:67 | the colour template always starts with `hsl(` and ends with `)` |
| ColorHash.Index | frontend/src/components/TodoCalendar/TodoCalendar.jsx:64-65 | an array index inside the array gives its element, any other index gives `undefined` |
| JsCore.TrimEmptyIffBlank | frontend/src/components/Popup/ChangeNamePopup.jsx:12-13 | `trim()` gives the empty string exactly when every character is JavaScript whitespace |
| JsCore.NumberOfString | frontend/src/components/TeamSpace/TeamSpace.jsx:67 | `Number(String(n))` gives back the integer `n` |
| JsCore.ForeignCharIsNaN | frontend/src/components/TeamSpace/TeamSpace.jsx:67 | a text holding a character outside digits, signs, the point, exponent and radix letters, hexadecimal digits and the letters of `Infinity` reads as `NaN` |
| JsCore.ToInt32 | frontend/src/components/TodoCalendar/TodoCalendar.jsx:37 | `hash & hash` lands in the signed 32-bit range, differs from its input by a multiple of 2^32 and keeps in-range values |
| JsCore.ShiftRight2 | frontend/src/components/TodoCalendar/TodoCalendar.jsx:65 | `>> 2` stays in the signed 32-bit range and divides a non-negative 32-bit value by 4 |
| JsCore.JsRem | frontend/src/components/TodoCalendar/TodoCalendar.jsx:53 | `%` takes the sign of the dividend: non-negative below the divisor for non-negative input, non-positive above minus the divisor otherwise |
| TodoCalendar.CategoryHsl | frontend/src/components/TodoCalendar/TodoCalendar.jsx:40-65 | the hue lies in the colour zone the hash selects and within 0..359; saturation and lightness are among the listed options |
| TodoCalendar.GenerateCategoryColor | frontend/src/components/TodoCalendar/TodoCalendar.jsx:28-70 | the method (falsy id fallback, hash loop, zone and option picks) returns the category colour of the corrected definition |
| TodoCalendar.CategoryColor | frontend/src/components/TodoCalendar/TodoCalendar.jsx:28-70 | the category colour as evidently intended: the fallback for a falsy id, otherwise `hsl(..)` of the zone, hue, saturation and lightness picked from the wrapped hash of `String(catId)`, the lightness always one of the options |
| TodoCalendar.CategoryValuesAsWritten | frontend/src/components/TodoCalendar/TodoCalendar.jsx:40-65 | hue, saturation and lightness exactly as the code computes them: `Math.abs`, JavaScript `%`, the signed 32-bit `>> 2`, and `undefined` for an option index outside the array |
| TodoCalendar.CategoryColorAsWritten | frontend/src/components/TodoCalendar/TodoCalendar.jsx:28-70 | the colour text as the code writes it: the fallback for a falsy id, otherwise the template filled with the as-written values |
| TodoCalendar.CategoryColorIsUsable | frontend/src/components/TodoCalendar/TodoCalendar.jsx:28-70 | a generated colour is the fallback or an `hsl(` text, and always passes the usable-colour test the board applies |
| TodoCalendar.AsWrittenAgreesBelowEdge | frontend/src/components/TodoCalendar/TodoCalendar.jsx:40-65 | for every hash except -2^31 the code as written picks exactly the corrected hue, saturation and lightness |
| TodoCalendar.AsWrittenAgreesOffEdge | frontend/src/components/TodoCalendar/TodoCalendar.jsx:28-70 | unless the id hashes to -2^31 the colour as written equals the corrected colour |
| TodoCalendar.AsWrittenEdge | frontend/src/components/TodoCalendar/TodoCalendar.jsx:40-65 | at hash -2^31 the code as written produces lightness `undefined`, the corrected one 75 |
| TodoCalendar.EdgeLightnessUndefined | frontend/src/components/TodoCalendar/TodoCalendar.jsx:65 | `Math.abs(-2^31) >> 2` is negative, so its `% 3` is -2, outside the options array |
| TodoCalendar.HashOf539019926 | frontend/src/components/TodoCalendar/TodoCalendar.jsx:32-38 | the text `539019926` hashes to exactly -2^31 |
| TodoCalendar.AsWrittenAtEdge | frontend/src/components/TodoCalendar/TodoCalendar.jsx:28-70 | any truthy id hashing to -2^31 gets `hsl(128, 95%, undefined%)` as written and `hsl(128, 95%, 75%)` when corrected |
| TodoCalendar.CategoryColorAsWrittenFails | frontend/src/components/TodoCalendar/TodoCalendar.jsx:28-70 | category id 539019926, as a number or a string, yields an invalid colour as written |
| TodoCalendar.FindCategory | frontend/src/components/TodoCalendar/TodoCalendar.jsx:167 | `find` returns the first category whose id is strictly equal, or nothing when none is |
| TodoCalendar.UsableServerColor | frontend/src/components/TodoCalendar/TodoCalendar.jsx:170-172 | a stored colour is used unless it is empty, `#007bff` or `#000000` |
| TodoCalendar.ChosenColor | frontend/src/components/TodoCalendar/TodoCalendar.jsx:166-177 | the category's own colour when it is usable, otherwise the generated colour (the corrected `CategoryColor`); the result is always usable |
| TodoCalendar.ResolveColor | frontend/src/components/TodoCalendar/TodoCalendar.jsx:158-189 | a non-empty cached colour wins; otherwise the chosen colour, built on the corrected `CategoryColor` |
| TodoCalendar.ColorKey | frontend/src/components/TodoCalendar/TodoCalendar.jsx:159 | the colour cache key `${catId}_${catName}`: the `String` forms of the id and the name joined by `_`, read by `ResolveColor` and `Calendar.GetCategoryColor` |
| TodoCalendar.PatchTodo | frontend/src/components/TodoCalendar/TodoCalendar.jsx:213-225 | a to-do with the message's id gets the new title and due date, any other stays as it was |
| TodoCalendar.PatchTodos | frontend/src/components/TodoCalendar/TodoCalendar.jsx:213-226 | the list keeps its length and each to-do is patched in place |
| TodoCalendar.PatchCategory | frontend/src/components/TodoCalendar/TodoCalendar.jsx:208-229 | a category without to-dos is untouched; otherwise only its to-do list is patched |
| TodoCalendar.ApplyTodoUpdated | frontend/src/components/TodoCalendar/TodoCalendar.jsx:201-233 | cache data that is not a category list is left alone; a list keeps its length and each category is patched |
| TodoCalendar.TodoUpdatedChangesOnlyMatches | frontend/src/components/TodoCalendar/TodoCalendar.jsx:208-229 | a `TODO_UPDATED` message changes the title and due date of the matching to-dos and nothing else in the cache |
| TodoCalendar.TodoUpdatedIdempotent | frontend/src/components/TodoCalendar/TodoCalendar.jsx:201-233 | applying the same message twice gives the same cache as applying it once |
| TodoCalendar.EventCategoryName | frontend/src/components/TodoCalendar/TodoCalendar.jsx:322 | an event's category name is always truthy and is the category's own name when that is truthy |
| TodoCalendar.CategoryEvents | frontend/src/components/TodoCalendar/TodoCalendar.jsx:311-326 | one event per to-do of the category, in order, each carrying its to-do and category id |
| TodoCalendar.GroupByDateBuckets | frontend/src/components/TodoCalendar/TodoCalendar.jsx:327-333 | each date's bucket holds exactly the events of that date, in their original order, and no bucket is empty |
| TodoCalendar.GroupByDate | frontend/src/components/TodoCalendar/TodoCalendar.jsx:327-333 | the `reduce` over the events: an event without a truthy due date is skipped, any other is appended to its date's bucket; `GroupByDateBuckets` states what the buckets hold |
| TodoCalendar.EventsByDate | frontend/src/components/TodoCalendar/TodoCalendar.jsx:307-337 | the memoised grouping equals, date by date, the filter of all events on that date |
| TodoCalendar.PushByDate | frontend/src/components/TodoCalendar/TodoCalendar.jsx:327-333 | the `forEach` that pushes into buckets builds the grouping function's map |
| TodoCalendar.TileClassName | frontend/src/components/TodoCalendar/TodoCalendar.jsx:395-405 | only month tiles with events get a class: incomplete when some event is unchecked, completed when all are checked |
| TodoCalendar.Calendar.constructor | frontend/src/components/TodoCalendar/TodoCalendar.jsx:85-91 | the calendar starts with an empty colour cache, no forced update and the query data it is given |
| TodoCalendar.Calendar.GetCategoryColor | frontend/src/components/TodoCalendar/TodoCalendar.jsx:158-189 | returns the resolved colour (built on the corrected `CategoryColor`) and caches it unless a non-empty colour was already cached |
| TodoCalendar.Calendar.HandleWebSocketMessage | frontend/src/components/TodoCalendar/TodoCalendar.jsx:192-240 | a `TODO_UPDATED` frame patches the cache and forces one re-render; an unparsable or other frame changes nothing |
| ColorUtils.GetColorForName | frontend/src/utils/colorUtils.jsx:1-15 | the lower-cased, unwrapped hash loop returns the name's colour |
| ColorUtils.ColorForName | frontend/src/utils/colorUtils.jsx:1-15 | the colour of a name: the components of the unwrapped hash of its lower-cased code units |
| ColorUtils.NameHsl | frontend/src/utils/colorUtils.jsx:8-12 | hue within 0..359, saturation within 25..50, lightness within 75..90; hash 0 gives `hsl(0, 25%, 75%)` |
| ColorUtils.ColorIgnoresCase | frontend/src/utils/colorUtils.jsx:2 | with the ASCII case mapping of the model, upper- and lower-casing a name does not change its colour |
| ColorUtils.ColorDeterministic | frontend/src/utils/colorUtils.jsx:1-15 | two names equal up to case get the same colour |
| ColorUtils.EmptyNameColor | frontend/src/utils/colorUtils.jsx:1-15 | the empty name gets `hsl(0, 25%, 75%)` |
| MainPage.ConsistentHsl | frontend/src/pages/Main/Main.jsx:35-37 | hue within 0..359, saturation within 20..40, lightness within 70..90 |
| MainPage.GenerateConsistentColor | frontend/src/pages/Main/Main.jsx:28-39 | the hash loop returns the seed's consistent colour |
| MainPage.ConsistentColorNonEmpty | frontend/src/pages/Main/Main.jsx:41-44 | a generated colour is never empty, so once cached it is always reused |
| MainPage.ColorCache.constructor | frontend/src/pages/Main/Main.jsx:18 | the colour map starts empty |
| MainPage.ColorCache.GetConsistentColor | frontend/src/pages/Main/Main.jsx:41-51 | a cached non-empty colour is returned unchanged; otherwise the generated colour is stored; either way the name's colour is stable |
| MainPage.TeamEntry | frontend/src/pages/Main/Main.jsx:122-158 | a team keeps its id and name; without token or team id, or when the fetch fails, it has no to-dos |
| MainPage.TeamEntries | frontend/src/pages/Main/Main.jsx:143-160 | one entry per team, in team order |
| MainPage.WeeklyTodos | frontend/src/pages/Main/Main.jsx:140-166 | every entry is some team's entry and has to-dos, and every team entry with to-dos is kept |
| MainPage.HasTodos | frontend/src/pages/Main/Main.jsx:160 | the filter's test `result.todos.length > 0`, used by `WeeklyTodos` and its split and singleton lemmas |
| MainPage.WeeklyTodosSplits | frontend/src/pages/Main/Main.jsx:140-166 | the entries of a joined team list are the joined entries, so the result keeps the order of the teams |
| MainPage.WeeklyTodosOfOne | frontend/src/pages/Main/Main.jsx:140-166 | a single team yields its entry exactly when the entry has to-dos |
| MainPage.WeeklyTodosInTeamOrder | frontend/src/pages/Main/Main.jsx:160-161 | when every team has to-dos the result lists all teams in their order |
| MainPage.WeeklyTodosWithoutToken | frontend/src/pages/Main/Main.jsx:122-125 | without a token the overview is empty |
| MainPage.StoredUserId | frontend/src/pages/Main/Main.jsx:23 | the stored id becomes a number or `NaN`, and a missing one becomes 0 |
| MainPage.MyTodos | frontend/src/pages/Main/Main.jsx:271-276 | exactly the to-dos assigned to the user |
| MainPage.AssignedTo | frontend/src/pages/Main/Main.jsx:273-274 | a to-do is the user's when its assignees are an array holding an id whose `String` form is the user's |
| MainPage.RenderedBoards | frontend/src/pages/Main/Main.jsx:269-278 | exactly the teams with at least one of the user's to-dos |
| MainPage.AssignedToEitherForm | frontend/src/pages/Main/Main.jsx:273-274 | an assignee id stored as a number or as its text both count as assigned |
| MainPage.MemberName | frontend/src/pages/Main/Main.jsx:222-224 | an array of ids is joined with `, `, anything else is returned as it is |
| MainPage.JoinText | frontend/src/pages/Main/Main.jsx:223 | how `join` renders one element: `null` and `undefined` as the empty text, anything else as its `String` form |
| MainPage.MemberNameShortArrays | frontend/src/pages/Main/Main.jsx:222-224 | the empty array gives the empty text and a single id gives its own text |
| MainPage.GuardStep | frontend/src/pages/Main/Main.jsx:181-198 | the initial load runs exactly on an authorised mount before any load; team creation clears the guard |
| MainPage.LoadsBoundedByResets | frontend/src/pages/Main/Main.jsx:181-198 | over any run, loads never exceed one plus the number of team creations |
| MainPage.InitGuard.constructor | frontend/src/pages/Main/Main.jsx:25 | the guard starts cleared |
| MainPage.InitGuard.OnMount | frontend/src/pages/Main/Main.jsx:181-195 | the mount effect follows the guard step |
| MainPage.InitGuard.HandleCreated | frontend/src/pages/Main/Main.jsx:197-198 | team creation follows the guard step |
| SidebarProfile.EffectUserId | frontend/src/components/SidebarProfile/SidebarProfile.jsx:48-49 | a non-zero user id is the stored value read as a number; a missing or non-numeric one is 0 |
| SidebarProfile.Connect | frontend/src/components/SidebarProfile/SidebarProfile.jsx:52-54 | `connect` adds one socket in the connecting state |
| SidebarProfile.Schedule | frontend/src/components/SidebarProfile/SidebarProfile.jsx:67-74 | a reconnect adds one pending timer and stores its handle |
| SidebarProfile.ClearTimer | frontend/src/components/SidebarProfile/SidebarProfile.jsx:79 | `clearTimeout` cancels exactly the timer whose handle it is given |
| SidebarProfile.CloseLatest | frontend/src/components/SidebarProfile/SidebarProfile.jsx:77-78 | closing keeps the number of sockets |
| SidebarProfile.Delivered | frontend/src/components/SidebarProfile/SidebarProfile.jsx:72-74 | a delivered `close` leaves its socket CLOSED and remembers that its `close` has fired |
| SidebarProfile.Step | frontend/src/components/SidebarProfile/SidebarProfile.jsx:47-80 | one event of the socket effect as written: mount connects for a non-zero stored user, error first closes its socket and then schedules unless the latest socket is open, the first close of a socket always schedules, a due timer connects, teardown closes the latest socket and clears only the remembered timer |
| SidebarProfile.Run | frontend/src/components/SidebarProfile/SidebarProfile.jsx:47-80 | a history of events applied one after another with the code as written |
| SidebarProfile.NoSocketWithoutUser | frontend/src/components/SidebarProfile/SidebarProfile.jsx:48-49 | mounting without a usable user id opens no socket |
| SidebarProfile.CountChangesOnlyByUpdates | frontend/src/components/SidebarProfile/SidebarProfile.jsx:41-64 | the unread count changes only through a count message for this user or the count fetch |
| SidebarProfile.CountUpdates | frontend/src/components/SidebarProfile/SidebarProfile.jsx:33-64 | a count message for the user sets the count; a fetch sets it or, on failure, hides the badge |
| SidebarProfile.BadgeShown | frontend/src/components/SidebarProfile/SidebarProfile.jsx:105 | the badge test `realTimeCount > 0`: the count read as a number is positive, so a text count such as "3" shows it; `CountUpdates` states that a failed fetch hides it |
| SidebarProfile.ReconnectScheduling | frontend/src/components/SidebarProfile/SidebarProfile.jsx:67-74 | the first close of a socket always schedules a reconnect and a repeated one does nothing; an error closes its socket and schedules exactly when that socket had not yet failed and is the latest one or the latest one is not open; an error of an older socket while the latest is open schedules nothing |
| SidebarProfile.OpenSocketFailsTwice | frontend/src/components/SidebarProfile/SidebarProfile.jsx:67-74 | an open socket that fails and then closes leaves two pending reconnects, because `readyState` is already CLOSED when `onerror` tests it |
| SidebarProfile.TwoReconnectsOneCancelled | frontend/src/components/SidebarProfile/SidebarProfile.jsx:67-79 | an error then a close leave two timers, and teardown cancels only the second |
| SidebarProfile.MountWithStoredText | frontend/src/components/SidebarProfile/SidebarProfile.jsx:48-53 | a stored id text `"7"` opens one socket |
| SidebarProfile.ReconnectsAfterUnmount | frontend/src/components/SidebarProfile/SidebarProfile.jsx:72-80 | as written, a close after teardown and its timer open a second socket on an unmounted component |
| SidebarProfile.ScheduleFixed | frontend/src/components/SidebarProfile/SidebarProfile.jsx:69-73 | the corrected reconnect never changes the sockets or the mounted flag by itself |
| SidebarProfile.StepFixed | frontend/src/components/SidebarProfile/SidebarProfile.jsx:67-80 | the corrected error, close and teardown: the error and close still close their socket, a reconnect is scheduled only while mounted and replaces the pending one; every other event as written |
| SidebarProfile.RunFixed | frontend/src/components/SidebarProfile/SidebarProfile.jsx:47-80 | a history of events applied one after another with the corrected steps |
| SidebarProfile.StepFixedKeepsInv | frontend/src/components/SidebarProfile/SidebarProfile.jsx:47-80 | every corrected step keeps the invariant that an unmounted component has no pending timer |
| SidebarProfile.StepFixedUnmounted | frontend/src/components/SidebarProfile/SidebarProfile.jsx:77-80 | after teardown no corrected step mounts again or opens a socket |
| SidebarProfile.RunFixedKeepsInv | frontend/src/components/SidebarProfile/SidebarProfile.jsx:47-80 | the invariant holds after any run of corrected steps |
| SidebarProfile.RunFixedUnmounted | frontend/src/components/SidebarProfile/SidebarProfile.jsx:77-80 | no run of events after teardown opens a socket |
| SidebarProfile.NoSocketAfterUnmount | frontend/src/components/SidebarProfile/SidebarProfile.jsx:72-80 | with the corrected teardown, whatever happened before and after, no socket is opened after unmount |
| SidebarProfile.FixedCancelsAll | frontend/src/components/SidebarProfile/SidebarProfile.jsx:67-79 | with the corrected reconnect an error then a close leave one live timer, and teardown cancels it |
| SidebarProfile.SidebarSocket.constructor | frontend/src/components/SidebarProfile/SidebarProfile.jsx:26-27 | no sockets, no timers, count 0 |
| SidebarProfile.SidebarSocket.Connect | frontend/src/components/SidebarProfile/SidebarProfile.jsx:52-54 | the state after `connect` is the connect step |
| SidebarProfile.SidebarSocket.ScheduleReconnect | frontend/src/components/SidebarProfile/SidebarProfile.jsx:69-73 | the state after the reconnect is the corrected schedule step |
| SidebarProfile.SidebarSocket.Mount | frontend/src/components/SidebarProfile/SidebarProfile.jsx:47-76 | the state after the effect is the corrected mount step |
| SidebarProfile.SidebarSocket.OnOpen | frontend/src/components/SidebarProfile/SidebarProfile.jsx:55 | the state after `onopen` is the corrected open step |
| SidebarProfile.SidebarSocket.OnMessage | frontend/src/components/SidebarProfile/SidebarProfile.jsx:56-66 | the state after `onmessage` is the corrected message step |
| SidebarProfile.SidebarSocket.OnError | frontend/src/components/SidebarProfile/SidebarProfile.jsx:67-71 | the state after `onerror` is the corrected error step |
| SidebarProfile.SidebarSocket.OnClose | frontend/src/components/SidebarProfile/SidebarProfile.jsx:72-74 | the state after `onclose` is the corrected close step |
| SidebarProfile.SidebarSocket.OnTimer | frontend/src/components/SidebarProfile/SidebarProfile.jsx:69-73 | the state after a reconnect timer fires is the corrected timer step |
| SidebarProfile.SidebarSocket.Unmount | frontend/src/components/SidebarProfile/SidebarProfile.jsx:77-80 | the state after teardown is the corrected unmount step |
| SidebarProfile.SidebarSocket.OnCountFetched | frontend/src/components/SidebarProfile/SidebarProfile.jsx:31-44 | the state after the count fetch resolves is the corrected fetch step |
| NotificationPanel.ForwardedCount | frontend/src/components/Notification/NotificationPanel.jsx:26-38 | a count is forwarded exactly when a callback exists and the frame is a count update for this user, and it is the frame's count |
| Records.CountUpdateFor | frontend/src/components/Notification/NotificationPanel.jsx:30-31 | a parsed frame whose `type` is `NOTIFICATION_COUNT_UPDATED` and whose `userId` is strictly equal to the user's id, the test shared with SidebarProfile.jsx:60-63 |
| NotificationPanel.UnreadCount | frontend/src/components/Notification/NotificationPanel.jsx:95 | the unread count never exceeds the number of notices |
| NotificationPanel.Remaining | frontend/src/components/Notification/NotificationPanel.jsx:90 | after a delete, every copy of a notice with another id remains and every copy of one with this id goes, and the list does not grow |
| NotificationPanel.RemainingKeepsOrder | frontend/src/components/Notification/NotificationPanel.jsx:90 | the delete's filter acts on each part of the list separately, so the remaining notices keep their order |
| NotificationPanel.RemainingOfOne | frontend/src/components/Notification/NotificationPanel.jsx:90 | a single notice stays exactly when its id is another |
| NotificationPanel.FindNotice | frontend/src/components/Notification/NotificationPanel.jsx:93 | finds the first notice with the id: no earlier notice has it; or reports that none has it |
| NotificationPanel.MarkRead | frontend/src/components/Notification/NotificationPanel.jsx:116 | the notices with the id become read, every other notice is untouched |
| NotificationPanel.MarkAll | frontend/src/components/Notification/NotificationPanel.jsx:144 | every notice becomes read and nothing else changes |
| NotificationPanel.DisabledIffNoneUnread | frontend/src/components/Notification/NotificationPanel.jsx:158 | the mark-all button is disabled exactly when nothing is unread |
| NotificationPanel.MarkAllDisabled | frontend/src/components/Notification/NotificationPanel.jsx:158 | `items.every(n => n.isRead)`: every notice is read; `DisabledIffNoneUnread` ties it to the unread count |
| NotificationPanel.MarkReadCount | frontend/src/components/Notification/NotificationPanel.jsx:115-123 | the count reported after marking one read equals the unread count of the new list |
| NotificationPanel.DeleteCount | frontend/src/components/Notification/NotificationPanel.jsx:89-97 | deleting lowers the unread count by the number of unread notices with that id |
| NotificationPanel.MarkAllLeavesNoneUnread | frontend/src/components/Notification/NotificationPanel.jsx:144 | after marking all, nothing is unread and the button is disabled |
| NotificationPanel.StaleMarkReadCount | frontend/src/components/Notification/NotificationPanel.jsx:108-123 | with unread notices 1 and 2, a delete of 2 and then the mark-read of 1 clicked before it leave no unread notice, while the count computed from the captured list is 1 |
| NotificationPanel.NoticeList.constructor | frontend/src/components/Notification/NotificationPanel.jsx:7 | the list starts empty |
| NotificationPanel.NoticeList.HandleDelete | frontend/src/components/Notification/NotificationPanel.jsx:81-106 | a resolved delete removes the notices with the id and reports the new unread count exactly when an unread notice went |
| NotificationPanel.NoticeList.HandleMarkRead | frontend/src/components/Notification/NotificationPanel.jsx:108-127 | a resolved request marks the notice read in the current list; the count reported is computed from the list the click handler captured, and equals the new unread count when the list did not change in between |
| NotificationPanel.NoticeList.HandleMarkedAll | frontend/src/components/Notification/NotificationPanel.jsx:129-148 | the request is made exactly when something is unread; when it resolves every notice is read and the button disabled |
| TodoCard.HandleEdit | frontend/src/components/TodoCard/TodoCard.jsx:55-74 | the edit popup opens with the to-do exactly when the user may edit it, and is refused otherwise |
| TodoCard.CanEditTodo | frontend/src/components/TodoCard/TodoCard.jsx:17-31 | both ids present, and the user is the creator or an assignee under `Number` equality |
| TodoCard.AssigneeNumEq | frontend/src/components/TodoCard/TodoCard.jsx:26-30 | the assignees are present and one of them equals the user id under `Number` equality; a missing list is no match |
| TodoCard.CanDeleteTodo | frontend/src/components/TodoCard/TodoCard.jsx:34-39 | both ids present, and the user is the creator under `Number` equality |
| TodoCard.HandleDelete | frontend/src/components/TodoCard/TodoCard.jsx:76-85 | a delete is sent exactly when the user may delete and confirms; it is refused exactly when the user may not; nothing happens exactly when the user may delete but declines |
| TodoCard.CheckboxToggle | frontend/src/components/TodoCard/TodoCard.jsx:89-95 | a disabled checkbox reports nothing; an enabled one reports the to-do's id and the new value |
| TodoCard.DeleteImpliesEdit | frontend/src/components/TodoCard/TodoCard.jsx:17-39 | whoever may delete a to-do may also edit it |
| TodoCard.FalsyIdsPermitNothing | frontend/src/components/TodoCard/TodoCard.jsx:17-39 | a missing user or creator id permits neither edit nor delete |
| TodoCard.NonNumericIdPermitsNothing | frontend/src/components/TodoCard/TodoCard.jsx:19-38 | a user id that is not a number permits nothing |
| TodoCard.CreatorTextIsCreator | frontend/src/components/TodoCard/TodoCard.jsx:19-23 | the creator may edit and delete even when their id is held as text |
| TodoCard.CardNeverToggles | frontend/src/components/TodoCard/TodoCard.jsx:93-94 | the card's checkbox is always disabled, so it never reports a toggle |
| TodoBoard.FormatBGColor | frontend/src/components/TodoBoard/TodoBoard.jsx:58-63 | empty gives the default, hex gets alpha `22`, `hsl` becomes `hsla` with alpha 0.13, anything else is kept |
| TodoBoard.GetBGColor | frontend/src/components/TodoBoard/TodoBoard.jsx:66-69 | the background uses the category's usable colour, otherwise the generated one of the corrected `CategoryColor` |
| TodoBoard.HslBecomesHsla | frontend/src/components/TodoBoard/TodoBoard.jsx:61 | an `hsl(h, s%, l%)` colour becomes `hsla(h, s%, l%, 0.13)` |
| TodoBoard.GeneratedBackground | frontend/src/components/TodoBoard/TodoBoard.jsx:13-69 | without a usable colour the background is the corrected `CategoryHsl` hue, saturation and lightness at alpha 0.13 |
| TodoBoard.HexBackground | frontend/src/components/TodoBoard/TodoBoard.jsx:60-67 | a usable hex colour gets the `22` alpha suffix |
| TodoBoard.NormalizeTodo | frontend/src/components/TodoBoard/TodoBoard.jsx:98-104 | the file form is never missing and falls back to `file_form`; only the three normalised fields change |
| TodoBoard.NormalizeTodos | frontend/src/components/TodoBoard/TodoBoard.jsx:98-105 | each to-do is normalised in place |
| TodoBoard.NormalizeCategory | frontend/src/components/TodoBoard/TodoBoard.jsx:96-105 | every category gets a to-do list: the normalised to-dos, or empty when `todos` was missing, `null` or `undefined`; nothing else changes |
| TodoBoard.NormalizeResponse | frontend/src/components/TodoBoard/TodoBoard.jsx:96-106 | each category of the response is normalised in place |
| TodoBoard.NormalizeIdempotent | frontend/src/components/TodoBoard/TodoBoard.jsx:96-106 | normalising an already normalised response changes nothing |
| TodoBoard.CombinedCategoryData | frontend/src/components/TodoBoard/TodoBoard.jsx:194-231 | no data until both queries have loaded; then one entry per category, in order, with the to-dos of the matching to-do category |
| TodoBoard.CombinedTodosComeFromServer | frontend/src/components/TodoBoard/TodoBoard.jsx:208-216 | a category's to-dos come from a to-do category with the same id, and are empty when there is none |
| TodoBoard.FindMember | frontend/src/components/TodoBoard/TodoBoard.jsx:242 | finds a member whose id is strictly equal to the id read as a number, or reports none |
| TodoBoard.GetMemberName | frontend/src/components/TodoBoard/TodoBoard.jsx:233-247 | the loop over the ids builds the member-name text |
| TodoBoard.MemberNameText | frontend/src/components/TodoBoard/TodoBoard.jsx:233-247 | the text `getMemberName` returns: "미지정" for no ids or a single falsy id, otherwise each id's member name, or "미지정" when none has that `Number`, joined with `, `; `MemberNames` states its cases |
| TodoBoard.MemberNames | frontend/src/components/TodoBoard/TodoBoard.jsx:233-247 | a known member's id gives their name; members with text ids are never found; no ids gives the unassigned label |
| TodoBoard.AllTodos | frontend/src/components/TodoBoard/TodoBoard.jsx:550-552 | exactly the to-dos of all categories |
| TodoBoard.FindTodo | frontend/src/components/TodoBoard/TodoBoard.jsx:552 | finds a to-do with the id, or reports none |
| TodoBoard.ToggleAllowed | frontend/src/components/TodoBoard/TodoBoard.jsx:591-612 | an unknown to-do passes; a known one only when the user may tick it |
| TodoBoard.CanCheck | frontend/src/components/TodoBoard/TodoBoard.jsx:598-607 | without assignees the creator may tick, otherwise an assignee under `Number` equality |
| TodoBoard.DeleteAllowed | frontend/src/components/TodoBoard/TodoBoard.jsx:548-562 | an unknown to-do passes; a known one only when the user's id and the creator's are equal as numbers (`Number(a) === Number(b)`) |
| TodoBoard.BoardAndCardAgree | frontend/src/components/TodoBoard/TodoBoard.jsx:597-607 | with truthy ids, a tick the board allows is an edit the card allows, and a delete the card allows the board allows too |
| TodoBoard.BoardLetsMissingIdsDelete | frontend/src/components/TodoBoard/TodoBoard.jsx:554-561 | with no user and no creator the board's check passes where the card refuses |
| TodoBoard.AddTodoRequest | frontend/src/components/TodoBoard/TodoBoard.jsx:385-407 | the request carries the category, team and date, each assignee id read as a number, and the trimmed text fields |
| TodoBoard.AssigneeIdsRoundTrip | frontend/src/components/TodoBoard/TodoBoard.jsx:388-391 | ids held as their text are sent back as the same numbers |
| TodoBoard.BlankFieldsSentEmpty | frontend/src/components/TodoBoard/TodoBoard.jsx:394-397 | a blank file form is sent as the empty text |
| TodoBoard.Board.constructor | frontend/src/components/TodoBoard/TodoBoard.jsx:126-127 | no popup category and an empty form |
| TodoBoard.Board.HandleOpenPopup | frontend/src/components/TodoBoard/TodoBoard.jsx:249-253 | opening sets the category and resets the form |
| TodoBoard.Board.HandleClosePopup | frontend/src/components/TodoBoard/TodoBoard.jsx:255-258 | closing clears the category and keeps the form |
| TodoBoard.Board.SetNewTodo | frontend/src/components/TodoBoard/TodoBoard.jsx:370-373 | the form is replaced and the category kept |
| DetailTodoPopup.DeleteExistingIsUpload | frontend/src/components/TodoPopup/DetailTodoPopup.jsx:88-98 | deleting the existing file is allowed exactly when uploading is; an unassigned to-do or an assignee by id text may upload |
| DetailTodoPopup.HasAssignees | frontend/src/components/TodoPopup/DetailTodoPopup.jsx:88-89 | the assignees are an array with at least one id |
| DetailTodoPopup.CanUpload | frontend/src/components/TodoPopup/DetailTodoPopup.jsx:91-98 | an unassigned to-do, or an assignee under `String` equality |
| DetailTodoPopup.IsAssignee | frontend/src/components/TodoPopup/DetailTodoPopup.jsx:91-95 | the to-do has assignees and one of them has the same `String` form as the user id |
| DetailTodoPopup.CanDeleteExisting | frontend/src/components/TodoPopup/DetailTodoPopup.jsx:306-307 | an assignee of a to-do that has assignees, or anyone on a to-do without them; `DeleteExistingIsUpload` proves it equals `CanUpload` |
| DetailTodoPopup.UploadAndEditDiffer | frontend/src/components/TodoPopup/DetailTodoPopup.jsx:91-98 | the upload check compares id texts, so assignee `"07"` does not let user 7 upload though `==` would match them |
| DetailTodoPopup.Extension | frontend/src/components/TodoPopup/DetailTodoPopup.jsx:110 | the extension holds no dot, is no longer than the name, and a name without a dot is its own extension |
| DetailTodoPopup.ExtensionAfterLastDot | frontend/src/components/TodoPopup/DetailTodoPopup.jsx:110 | the extension is the lower-cased text after the last dot |
| DetailTodoPopup.RequiredExt | frontend/src/components/TodoPopup/DetailTodoPopup.jsx:107 | a required format exists exactly for a non-empty text, lower-cased |
| DetailTodoPopup.NeedsConvertVersusDiffers | frontend/src/components/TodoPopup/DetailTodoPopup.jsx:110-112 | the preview's convert flag and the upload's comparison agree except for files without an extension |
| DetailTodoPopup.NeedsConvert | frontend/src/components/TodoPopup/DetailTodoPopup.jsx:110-112 | a required format exists, the file has a non-empty extension, and the two differ |
| DetailTodoPopup.SameFormatNeedsNoConversion | frontend/src/components/TodoPopup/DetailTodoPopup.jsx:107-112 | a file already in the required format, in any case, is never converted |
| DetailTodoPopup.Tick | frontend/src/components/TodoPopup/DetailTodoPopup.jsx:37-45 | each tick adds 2 until 100, then finishes the conversion; the gauge stays well-formed |
| DetailTodoPopup.TicksToFinish | frontend/src/components/TodoPopup/DetailTodoPopup.jsx:34-49 | the gauge climbs by 2 per tick and finishes exactly one tick after reaching 100 |
| DetailTodoPopup.NewItems | frontend/src/components/TodoPopup/DetailTodoPopup.jsx:109-115 | one preview per chosen file, flagged for conversion exactly when its extension needs it |
| DetailTodoPopup.RemoveAt | frontend/src/components/TodoPopup/DetailTodoPopup.jsx:483-488 | removes exactly the element at the index and keeps the others in order; an index outside leaves the list alone |
| DetailTodoPopup.WithoutFile | frontend/src/components/TodoPopup/DetailTodoPopup.jsx:283 | exactly the submitted files with another id remain, each as often as before |
| DetailTodoPopup.WithoutFileKeepsOrder | frontend/src/components/TodoPopup/DetailTodoPopup.jsx:283 | the filter keeps the order of the list: it distributes over concatenation |
| DetailTodoPopup.WithoutFileOfOne | frontend/src/components/TodoPopup/DetailTodoPopup.jsx:283 | a single entry is kept exactly when its id is another |
| DetailTodoPopup.WantedFlags | frontend/src/components/TodoPopup/DetailTodoPopup.jsx:188-190 | a file is marked for conversion exactly when its extension differs from the required one |
| DetailTodoPopup.ConvertPlanSendsWanted | frontend/src/components/TodoPopup/DetailTodoPopup.jsx:183-211 | conversion requests go only to uploaded files marked for it, in increasing order |
| DetailTodoPopup.ConvertPlanFailure | frontend/src/components/TodoPopup/DetailTodoPopup.jsx:182-215 | the loop ends in the catch block exactly when an uploaded entry is `null` or `undefined`, an uploaded entry has no picked file at its index, or a marked file's conversion is refused; otherwise every marked file was converted |
| DetailTodoPopup.NullishEntryStops | frontend/src/components/TodoPopup/DetailTodoPopup.jsx:183-186 | a `null` or `undefined` uploaded entry at index `k` (`fileInfo.id` throws) ends the loop in the catch block, and no request is sent for `k` or a later index |
| DetailTodoPopup.NullEntrySendsNothing | frontend/src/components/TodoPopup/DetailTodoPopup.jsx:183-186 | a picked `a.png` due for pdf whose uploaded entry is `null` sends no request and ends in the catch block |
| DetailTodoPopup.ConvertCalls | frontend/src/components/TodoPopup/DetailTodoPopup.jsx:182-215 | the loop over the uploaded entries issues the planned conversions and failure, testing each entry before its picked file |
| DetailTodoPopup.ConvertPlan | frontend/src/components/TodoPopup/DetailTodoPopup.jsx:182-215 | the conversions the loop requests from index `i` on and whether it ends in the catch block: a `null` or `undefined` uploaded entry, a missing picked file or a refused request stops it, in that order of tests; a file already in the required format is skipped |
| DetailTodoPopup.TrimmedSplitOfJoined | frontend/src/components/TodoPopup/DetailTodoPopup.jsx:294-297 | splitting the joined names at commas and trimming gives back the names |
| DetailTodoPopup.NamesOfJoined | frontend/src/components/TodoPopup/DetailTodoPopup.jsx:291-297 | the assignee text the board builds is read back as the same list of names |
| DetailTodoPopup.DisplayOfJoinedNames | frontend/src/components/TodoPopup/DetailTodoPopup.jsx:291-304 | the summary shows the placeholder, the one name, or the first name with `외 n명` for the others |
| DetailTodoPopup.AssigneeDisplay | frontend/src/components/TodoPopup/DetailTodoPopup.jsx:299-304 | the placeholder for no names, the one name, or the first name with the number of the others |
| DetailTodoPopup.SelectionLengthAsWritten | frontend/src/components/TodoPopup/DetailTodoPopup.jsx:422 | reading `.length` of the selection throws exactly when it is `null` |
| DetailTodoPopup.AppendAsWritten | frontend/src/components/TodoPopup/DetailTodoPopup.jsx:117 | spreading the previous selection throws exactly when it is `null` |
| DetailTodoPopup.FirstRenderThrows | frontend/src/components/TodoPopup/DetailTodoPopup.jsx:412-422 | for a user who may upload, the first render and the first file choice both throw |
| DetailTodoPopup.DetailPopup.constructor | frontend/src/components/TodoPopup/DetailTodoPopup.jsx:22-30 | the corrected popup starts with an empty selection, no submitted files, no upload and an idle gauge |
| DetailTodoPopup.DetailPopup.HandleFileSelect | frontend/src/components/TodoPopup/DetailTodoPopup.jsx:101-132 | the new previews are appended; the gauge starts converting when one needs it and shows finished otherwise |
| DetailTodoPopup.DetailPopup.OnTick | frontend/src/components/TodoPopup/DetailTodoPopup.jsx:36-46 | the gauge takes one tick |
| DetailTodoPopup.DetailPopup.RemovePreview | frontend/src/components/TodoPopup/DetailTodoPopup.jsx:482-488 | removes the preview at the index |
| DetailTodoPopup.DetailPopup.HandleDeleteFile | frontend/src/components/TodoPopup/DetailTodoPopup.jsx:263-287 | a confirmed, successful delete removes the file from the submitted list, and nothing else changes |
| DetailTodoPopup.DetailPopup.HandleFileUpload | frontend/src/components/TodoPopup/DetailTodoPopup.jsx:136-229 | a failed upload leaves the state; a successful one issues the planned conversions, clears the selection and finishes the gauge |
| DetailTodoPopup.SummaryCountsBoardIds | frontend/src/components/TodoPopup/DetailTodoPopup.jsx:291-304 | the popup reads back as many names as the board had ids |
| MainTodoPopup.FirstTruthy | frontend/src/components/TodoPopup/MainTodoPopup.jsx:217-220 | the `\|\|` chain picks the first truthy field, or none when all are falsy |
| MainTodoPopup.HasUploadedFile | frontend/src/components/TodoPopup/MainTodoPopup.jsx:204-207 | any of the four file fields is truthy |
| MainTodoPopup.PathTail | frontend/src/components/TodoPopup/MainTodoPopup.jsx:219 | the last path segment contains neither `/` nor `\` |
| MainTodoPopup.GetFileName | frontend/src/components/TodoPopup/MainTodoPopup.jsx:209-222 | the method returns the last path segment of the first truthy of the five name fields, or the unknown-file label when all are falsy |
| MainTodoPopup.FileNameOf | frontend/src/components/TodoPopup/MainTodoPopup.jsx:209-222 | the last path segment of the first truthy of the five name fields, or the unknown-file label |
| MainTodoPopup.FileNameHasNoSeparator | frontend/src/components/TodoPopup/MainTodoPopup.jsx:219 | a displayed file name never contains a path separator |
| MainTodoPopup.FileNameOfPath | frontend/src/components/TodoPopup/MainTodoPopup.jsx:214-219 | with only a path stored, the name is the part after the last `/` |
| MainTodoPopup.OnlyFilePathIsUnknown | frontend/src/components/TodoPopup/MainTodoPopup.jsx:204-222 | a to-do with only `file_path` counts as uploaded yet shows the unknown-file label |
| MainTodoPopup.Cleared | frontend/src/components/TodoPopup/MainTodoPopup.jsx:193-194 | deleting clears the path and the file name and nothing else |
| MainTodoPopup.AfterDelete | frontend/src/components/TodoPopup/MainTodoPopup.jsx:193-207 | a render after a delete shows a file exactly when `file_path` or `fileUrl` is set and keeps a name from `uploadedFileName`; the delete itself does not cause that render |
| MainTodoPopup.TodoObject.constructor | frontend/src/components/TodoPopup/MainTodoPopup.jsx:13 | the object holds the given to-do |
| MainTodoPopup.HandleFileDelete | frontend/src/components/TodoPopup/MainTodoPopup.jsx:178-201 | with the flag of the last render: nothing to delete when it is false, cancelled without confirmation, failed on an error response, otherwise deleted; a successful delete clears the path and name of the shared to-do object, anything else leaves it |
| MainTodoPopup.DeleteTwice | frontend/src/components/TodoPopup/MainTodoPopup.jsx:178-207 | two confirmed clicks without a render between them both send the DELETE request, although after the first the object has a file only when `file_path` or `fileUrl` is set |
| MainTodoPopup.ConvertedName | frontend/src/components/TodoPopup/MainTodoPopup.jsx:101 | the converted name is the part before the first dot, `_converted.`, then the target |
| MainTodoPopup.ConvertedNameOfSimpleName | frontend/src/components/TodoPopup/MainTodoPopup.jsx:101 | `base.ext` becomes `base_converted.target` |
| MainTodoPopup.ConvertedNameNeedsNoConversion | frontend/src/components/TodoPopup/MainTodoPopup.jsx:63-104 | a converted file is in the required format |
| MainTodoPopup.PreviewOf | frontend/src/components/TodoPopup/MainTodoPopup.jsx:349-390 | no check without a required format, a bar while converting, approval when finished or already in format |
| MainTodoPopup.MainPopup.constructor | frontend/src/components/TodoPopup/MainTodoPopup.jsx:22-28 | no file, an idle gauge, no upload |
| MainTodoPopup.MainPopup.StartConvert | frontend/src/components/TodoPopup/MainTodoPopup.jsx:76-78 | the gauge restarts at 0, converting |
| MainTodoPopup.MainPopup.HandleFileSelect | frontend/src/components/TodoPopup/MainTodoPopup.jsx:57-72 | a chosen file is kept; a conversion starts towards the required format exactly when its extension differs |
| MainTodoPopup.MainPopup.ConvertSucceeded | frontend/src/components/TodoPopup/MainTodoPopup.jsx:95-105 | the converted file replaces the selection and the gauge finishes |
| MainTodoPopup.MainPopup.ConvertFailed | frontend/src/components/TodoPopup/MainTodoPopup.jsx:106-119 | the gauge resets, and the selection is dropped unless the user retries |
| MainTodoPopup.MainPopup.OnTick | frontend/src/components/TodoPopup/MainTodoPopup.jsx:34-44 | the gauge takes one tick |
| MainTodoPopup.MainPopup.RemoveSelected | frontend/src/components/TodoPopup/MainTodoPopup.jsx:375-381 | the selection is dropped |
| MainTodoPopup.MainPopup.HandleFileUpload | frontend/src/components/TodoPopup/MainTodoPopup.jsx:123-151 | the selected file, else the uploaded one, is sent; the popup closes exactly when something was sent and succeeded |
| MainTodoPopup.MainPopup.SubmitDisabled | frontend/src/components/TodoPopup/MainTodoPopup.jsx:404 | the submit button is disabled while uploading or converting; `HandleFileUpload` requires only that no upload is running, so it also covers a call the disabled button would stop |
| MainTodoPopup.SelectThenPreview | frontend/src/components/TodoPopup/MainTodoPopup.jsx:57-72 | after a choice the preview shows approval for a file in format and a bar at 0 otherwise |
| MainTodoPopup.ConvertedFileApproved | frontend/src/components/TodoPopup/MainTodoPopup.jsx:95-105 | after a successful conversion the preview is approved |
| MainTodoPopup.SummaryOfMainPageIds | frontend/src/components/TodoPopup/MainTodoPopup.jsx:233-245 | the main page's joined ids read back as the same names in the summary |
| AddTodoPopup.SetField | frontend/src/components/TodoPopup/AddTodoPopup.jsx:34 | the named field takes the value and every other field is kept |
| AddTodoPopup.SetFieldToSameValue | frontend/src/components/TodoPopup/AddTodoPopup.jsx:34 | writing a field's own value leaves the form unchanged |
| AddTodoPopup.ToggleAssignee | frontend/src/components/TodoPopup/AddTodoPopup.jsx:43-50 | the id's membership flips, every other id's is kept, and a new id is appended |
| AddTodoPopup.RemoveEveryCopy | frontend/src/components/TodoPopup/AddTodoPopup.jsx:46 | removing an id drops all its copies and keeps every other id with its multiplicity |
| AddTodoPopup.ToggleTwiceRestores | frontend/src/components/TodoPopup/AddTodoPopup.jsx:43-50 | toggling a new id twice restores the selection |
| AddTodoPopup.ToggleFlipsHighlight | frontend/src/components/TodoPopup/AddTodoPopup.jsx:111-121 | a click flips the clicked member's highlight and no other member's |
| AddTodoPopup.IsSelected | frontend/src/components/TodoPopup/AddTodoPopup.jsx:112 | a member is highlighted when the text of their id is among the form's assignees |
| AddTodoPopup.FindByText | frontend/src/components/TodoPopup/AddTodoPopup.jsx:210 | finds a member whose id text matches, or reports none |
| AddTodoPopup.KnownNames | frontend/src/components/TodoPopup/AddTodoPopup.jsx:209-211 | every listed name is non-empty and belongs to a member |
| AddTodoPopup.AssigneeSummary | frontend/src/components/TodoPopup/AddTodoPopup.jsx:208-213 | the placeholder with no selection, otherwise the known names joined with `, ` |
| AddTodoPopup.AllKnownNamesListed | frontend/src/components/TodoPopup/AddTodoPopup.jsx:209-212 | when every id is a named member, every name is listed in selection order |
| AddTodoPopup.UnknownIdDropped | frontend/src/components/TodoPopup/AddTodoPopup.jsx:210-211 | an id of no member adds nothing to the names |
| AddTodoPopup.UnknownIdsShowBlank | frontend/src/components/TodoPopup/AddTodoPopup.jsx:208-213 | a selection of unknown ids shows an empty summary, not the placeholder |
| AddTodoPopup.SubmitCheck | frontend/src/components/TodoPopup/AddTodoPopup.jsx:64-86 | title, date, content and a custom format are required in that order; the form is added exactly when all are there |
| AddTodoPopup.AddPopup.constructor | frontend/src/components/TodoPopup/AddTodoPopup.jsx:12-13 | no custom format input, empty custom format |
| AddTodoPopup.AddPopup.HandleChange | frontend/src/components/TodoPopup/AddTodoPopup.jsx:18-35 | choosing `기타` opens the custom input with an empty format; any other format closes it; other fields are just set |
| AddTodoPopup.AddPopup.HandleCustomFormatChange | frontend/src/components/TodoPopup/AddTodoPopup.jsx:37-41 | the custom format is upper-cased and copied into the form |
| AddTodoPopup.AddPopup.HandleAssigneeToggle | frontend/src/components/TodoPopup/AddTodoPopup.jsx:43-50 | the form's assignees are toggled |
| AddTodoPopup.AddPopup.HandleSubmit | frontend/src/components/TodoPopup/AddTodoPopup.jsx:64-86 | the outcome is the submit check on the board's form |
| AddTodoPopup.AddedRequestIsComplete | frontend/src/components/TodoPopup/AddTodoPopup.jsx:64-86 | a form that passes the check sends a non-empty title, content and date, and a custom format when one was asked for |
| EditTodoPopup.TextOr | frontend/src/components/TodoBoard/TodoBoard.jsx:445-448 | a falsy field opens as the empty text, a text field as itself |
| EditTodoPopup.OpenedForm | frontend/src/components/TodoBoard/TodoBoard.jsx:440-453 | the edit form holds each assignee id as its text, in order, and none when the to-do has none |
| EditTodoPopup.OpenedHighlight | frontend/src/components/TodoPopup/EditTodoPopup.jsx:60-62 | a member is highlighted exactly when the to-do has an assignee with the same id text |
| EditTodoPopup.OtherStoredLiterally | frontend/src/components/TodoPopup/EditTodoPopup.jsx:22-25 | choosing `기타` stores the label itself as the file form |
| EditTodoPopup.EditToggle | frontend/src/components/TodoPopup/EditTodoPopup.jsx:27-34 | a toggle flips one id's membership and keeps the text fields |
| EditTodoPopup.ToggleNewMemberTwice | frontend/src/components/TodoPopup/EditTodoPopup.jsx:27-34 | toggling a member who was not assigned twice restores the opened form |
| EditTodoPopup.OpenedSummaryCountsAssignees | frontend/src/components/TodoPopup/EditTodoPopup.jsx:155-160 | when every assignee is a named member, the summary lists one name per assignee |
| TeamSpace.AuthValue | frontend/src/components/TeamSpace/TeamSpace.jsx:40-52 | the header always starts with `Bearer `, adding it only when missing |
| TeamSpace.AuthValueIdempotent | frontend/src/components/TeamSpace/TeamSpace.jsx:42-46 | building the header from a header changes nothing |
| TeamSpace.AuthValueOfBareToken | frontend/src/components/TeamSpace/TeamSpace.jsx:44-46 | the bare token follows the prefix unchanged |
| TeamSpace.ManagersFirst | frontend/src/components/TeamSpace/TeamSpace.jsx:133 | the sorted member list has the same length |
| TeamSpace.ManagersPrecedeOthers | frontend/src/components/TeamSpace/TeamSpace.jsx:133 | no manager follows a non-manager |
| TeamSpace.ManagersFirstIsPermutation | frontend/src/components/TeamSpace/TeamSpace.jsx:133 | the sort is a permutation of the members |
| TeamSpace.ManagersFirstIdempotent | frontend/src/components/TeamSpace/TeamSpace.jsx:133 | sorting a sorted list changes nothing |
| TeamSpace.PlaceManagers | frontend/src/components/TeamSpace/TeamSpace.jsx:133 | the first pass moves the managers, in order, to the front of the array |
| TeamSpace.PlaceOthers | frontend/src/components/TeamSpace/TeamSpace.jsx:133 | the second pass fills the rest with the non-managers in order |
| TeamSpace.SortMembers | frontend/src/components/TeamSpace/TeamSpace.jsx:133 | the array afterwards holds the stable managers-first order of its old contents |
| TeamSpace.FilterComplement | frontend/src/components/TeamSpace/TeamSpace.jsx:133 | the managers and the others together are the members |
| TeamSpace.TeamFilesOf | frontend/src/components/TeamSpace/TeamSpace.jsx:165-179 | files from a `files` object or a bare array, and none on any failure or other shape |
| TeamSpace.WithoutFile | frontend/src/components/TeamSpace/TeamSpace.jsx:192 | exactly the other files remain |
| TeamSpace.WithoutAbsentFile | frontend/src/components/TeamSpace/TeamSpace.jsx:192 | removing a file not in the list changes nothing |
| TeamSpace.WithoutFileSplits | frontend/src/components/TeamSpace/TeamSpace.jsx:192 | removal distributes over concatenation |
| TeamSpace.WithoutFileIdempotent | frontend/src/components/TeamSpace/TeamSpace.jsx:192 | removing twice is removing once |
| TeamSpace.RouteTeamId | frontend/src/components/TeamSpace/TeamSpace.jsx:65-75 | no route id gives `null`; any other gives a number or `NaN` |
| TeamSpace.RouteMatchesTeamClick | frontend/src/components/TeamSpace/TeamSpace.jsx:65-68 | the route id of team `n` is strictly equal to the id a click sets |
| TeamSpace.NonNumericRouteNeverActive | frontend/src/components/TeamSpace/TeamSpace.jsx:67 | a route id whose trimmed text holds a character that no numeric text can hold selects `NaN` and matches no team |
| TeamSpace.HexRouteSelectsTeam | frontend/src/components/TeamSpace/TeamSpace.jsx:67 | the route id "0x10" selects team 16, as `Number` reads radix prefixes |
| TeamSpace.LetterRouteNeverActive | frontend/src/components/TeamSpace/TeamSpace.jsx:67 | the route id "abc", hexadecimal letters without a prefix, matches no team |
| TeamSpace.TeamView.constructor | frontend/src/components/TeamSpace/TeamSpace.jsx:22-33 | no active team, the to-do panel, every popup closed, no files |
| TeamSpace.TeamView.HandleTeamClick | frontend/src/components/TeamSpace/TeamSpace.jsx:236-248 | clicking the active team changes nothing; another team becomes active with the to-do panel and every popup closed |
| TeamSpace.TeamView.HandlePanelToggle | frontend/src/components/TeamSpace/TeamSpace.jsx:270-274 | the chosen panel is shown |
| TeamSpace.TeamView.HandleInviteClose | frontend/src/components/TeamSpace/TeamSpace.jsx:276-280 | the invite popup closes and the to-do panel returns |
| TeamSpace.TeamView.RouteChanged | frontend/src/components/TeamSpace/TeamSpace.jsx:65-76 | the active team follows the route; a route id also brings back the to-do panel without calendar |
| TeamSpace.TeamView.ShowCalendar | frontend/src/components/TeamSpace/TeamSpace.jsx:321 | the calendar is shown |
| TeamSpace.TeamView.HideCalendar | frontend/src/components/TeamSpace/TeamSpace.jsx:340 | the calendar is hidden |
| TeamSpace.TeamView.StartFetchFiles | frontend/src/components/TeamSpace/TeamSpace.jsx:159-160 | the file list starts loading |
| TeamSpace.TeamView.FetchTeamFilesDone | frontend/src/components/TeamSpace/TeamSpace.jsx:159-182 | the file list is what the response holds and loading stops |
| TeamSpace.TeamView.HandleDeleteFile | frontend/src/components/TeamSpace/TeamSpace.jsx:184-196 | declined, failed or deleted according to the confirmation and the response; a delete removes exactly that file |
| TeamSpace.RouteThenClick | frontend/src/components/TeamSpace/TeamSpace.jsx:65-76 | arriving by route at team `n` leaves it active, so a click on it changes nothing |
| ChangePasswordPopup.RegexIsRule | frontend/src/components/Popup/ChangePasswordPopup.jsx:45-46 | the regular expression accepts exactly the stated rule: 8 to 20 code units, no line terminator, a letter, a digit and a special character |
| ChangePasswordPopup.RegexAccepts | frontend/src/components/Popup/ChangePasswordPopup.jsx:45 | the regular expression read construct by construct: three lookaheads from the start for a letter, a digit and a special character, then 8 to 20 code units, none a line terminator, to the end |
| ChangePasswordPopup.PasswordValid | frontend/src/components/Popup/ChangePasswordPopup.jsx:45-46 | the rule the form explains: 8 to 20 code units, no line terminator, an ASCII letter, a digit and a special character |
| ChangePasswordPopup.LookaheadAnywhere | frontend/src/components/Popup/ChangePasswordPopup.jsx:45 | without line terminators a lookahead finds its class exactly when it occurs anywhere |
| ChangePasswordPopup.ValidPasswordShape | frontend/src/components/Popup/ChangePasswordPopup.jsx:45 | a valid password has at least 8 code units and 4 characters |
| ChangePasswordPopup.SpaceAllowed | frontend/src/components/Popup/ChangePasswordPopup.jsx:45 | a space counts and is allowed |
| ChangePasswordPopup.LettersOnlyRejected | frontend/src/components/Popup/ChangePasswordPopup.jsx:45 | letters alone never pass |
| ChangePasswordPopup.ShortRejected | frontend/src/components/Popup/ChangePasswordPopup.jsx:45 | fewer than 8 characters never pass |
| ChangePasswordPopup.EmptyPasswordInvalid | frontend/src/components/Popup/ChangePasswordPopup.jsx:45-46 | the empty password breaks the rule |
| ChangePasswordPopup.StepRank | frontend/src/components/Popup/ChangePasswordPopup.jsx:84-95 | the steps are ranked send code, enter code, new password |
| ChangePasswordPopup.PasswordPopup.CurrentStep | frontend/src/components/Popup/ChangePasswordPopup.jsx:84-95 | the send step before a code is sent, the code step until verified, then the password step |
| ChangePasswordPopup.PasswordPopup.constructor | frontend/src/components/Popup/ChangePasswordPopup.jsx:6-12 | the popup opens at the send step with empty fields and both flags `true` |
| ChangePasswordPopup.PasswordPopup.SendCode | frontend/src/components/Popup/ChangePasswordPopup.jsx:14-25 | a resolved request moves to the code step; the step never goes back |
| ChangePasswordPopup.PasswordPopup.SetCode | frontend/src/components/Popup/ChangePasswordPopup.jsx:91 | only the code changes |
| ChangePasswordPopup.PasswordPopup.VerifyCode | frontend/src/components/Popup/ChangePasswordPopup.jsx:27-40 | a truthy `verified` reaches the password step; the step never goes back |
| ChangePasswordPopup.PasswordPopup.HandlePwChange | frontend/src/components/Popup/ChangePasswordPopup.jsx:42-48 | the rule flag is the regular expression's verdict and the match flag compares with the confirmation |
| ChangePasswordPopup.PasswordPopup.HandleConfirmChange | frontend/src/components/Popup/ChangePasswordPopup.jsx:50-54 | the match flag compares with the password |
| ChangePasswordPopup.PasswordPopup.ChangePassword | frontend/src/components/Popup/ChangePasswordPopup.jsx:56-64 | format first, then match; a sent password matches its confirmation and is valid or empty |
| ChangePasswordPopup.PasswordPopup.ChangePasswordChecked | frontend/src/components/Popup/ChangePasswordPopup.jsx:56-64 | the corrected submit sends only a valid password equal to its confirmation |
| ChangePasswordPopup.EmptyPasswordSent | frontend/src/components/Popup/ChangePasswordPopup.jsx:56-64 | as written, the untouched form sends the empty password |
| ChangePasswordPopup.EmptyPasswordRefused | frontend/src/components/Popup/ChangePasswordPopup.jsx:56-64 | the corrected submit refuses that state |
| ChangeNamePopup.NameValidIff | frontend/src/components/Popup/ChangeNamePopup.jsx:12-13 | a name is valid exactly when some character is not whitespace and it has at most 8 code units |
| ChangeNamePopup.NameValid | frontend/src/components/Popup/ChangeNamePopup.jsx:12-13 | the trimmed name is non-empty and the raw name has at most 8 code units |
| ChangeNamePopup.BlankNameInvalid | frontend/src/components/Popup/ChangeNamePopup.jsx:12-13 | a whitespace-only name is refused |
| ChangeNamePopup.SpacesCount | frontend/src/components/Popup/ChangeNamePopup.jsx:12-13 | a leading space pushes an 8-character name over the limit |
| ChangeNamePopup.NamePopup.constructor | frontend/src/components/Popup/ChangeNamePopup.jsx:6-7 | the popup opens with an empty name marked valid |
| ChangeNamePopup.NamePopup.HandleNameChange | frontend/src/components/Popup/ChangeNamePopup.jsx:9-14 | the flag follows the rule on the typed name |
| ChangeNamePopup.NamePopup.HandleSubmit | frontend/src/components/Popup/ChangeNamePopup.jsx:16-17 | nothing happens exactly when the button is disabled; a sent name is valid or empty |
| ChangeNamePopup.NamePopup.SubmitDisabled | frontend/src/components/Popup/ChangeNamePopup.jsx:57 | the submit button is disabled exactly when the validity flag is down; `HandleSubmit` is ignored exactly then |
| ChangeNamePopup.NamePopup.HandleSubmitChecked | frontend/src/components/Popup/ChangeNamePopup.jsx:16-17 | the corrected submit sends exactly the valid names |
| ChangeNamePopup.EmptyNameSent | frontend/src/components/Popup/ChangeNamePopup.jsx:6-17 | as written, the untouched field sends the empty name |
| ChangeNamePopup.EmptyNameRefused | frontend/src/components/Popup/ChangeNamePopup.jsx:16-17 | the corrected submit refuses that state |
| TeamProfilePopup.ManagerNeedsSameType | frontend/src/components/Popup/TeamProfilePopup.jsx:7 | the manager check is strict: the same id held as text does not make the user the manager |
| TeamProfilePopup.ManagerHasSameText | frontend/src/components/Popup/TeamProfilePopup.jsx:7 | the manager has the same id text |
| TeamProfilePopup.CheckImage | frontend/src/components/Popup/TeamProfilePopup.jsx:14-25 | no file, then over 5 MiB, then not `image/`, else accepted, each exactly in its case |
| TeamProfilePopup.SizeCheckedFirst | frontend/src/components/Popup/TeamProfilePopup.jsx:18-25 | a large file is reported too large whatever its type |
| TeamProfilePopup.FiveMebibytesAccepted | frontend/src/components/Popup/TeamProfilePopup.jsx:18 | exactly 5 MiB passes |
| TeamProfilePopup.Initial | frontend/src/components/Popup/TeamProfilePopup.jsx:168 | the initial is the upper-cased first character (one character under the ASCII case mapping of the model), empty for an empty name |
| TeamProfilePopup.ProfilePicture | frontend/src/components/Popup/TeamProfilePopup.jsx:166-180 | a missing or blank image gives the coloured initial; `/uploads` paths get the server URL; other images are used as they are |
| TeamProfilePopup.ImageUrlEndsWithPath | frontend/src/components/Popup/TeamProfilePopup.jsx:169-171 | the image URL always ends with the stored path |
| TeamProfilePopup.InitialIgnoresCase | frontend/src/components/Popup/TeamProfilePopup.jsx:168 | with the ASCII case mapping of the model, the initial is the same for any spelling of the name |
| TeamProfilePopup.AvatarIgnoresCase | frontend/src/components/Popup/TeamProfilePopup.jsx:167-168 | with the ASCII case mapping of the model, colour and initial do not depend on the case of the name |
| TeamProfilePopup.BlankImageIsAvatar | frontend/src/components/Popup/TeamProfilePopup.jsx:169-174 | a whitespace-only image path shows the avatar |
| TeamProfilePopup.UpdateAllowedIff | frontend/src/components/Popup/TeamProfilePopup.jsx:81-84 | an update is allowed exactly when the name has a non-whitespace character |
| TeamProfilePopup.UpdateAllowed | frontend/src/components/Popup/TeamProfilePopup.jsx:81-84 | the name has something besides whitespace |
| TeamProfilePopup.ProfileEditor.constructor | frontend/src/components/Popup/TeamProfilePopup.jsx:7-11 | the editor starts from the team's fields and the strict manager check |
| TeamProfilePopup.ProfileEditor.SetName | frontend/src/components/Popup/TeamProfilePopup.jsx:8 | only the name changes |
| TeamProfilePopup.ProfileEditor.SetDesc | frontend/src/components/Popup/TeamProfilePopup.jsx:9 | only the description changes |
| TeamProfilePopup.ProfileEditor.HandleImageChange | frontend/src/components/Popup/TeamProfilePopup.jsx:14-30 | the outcome is the image check; the upload starts exactly for an accepted file |
| TeamProfilePopup.ProfileEditor.ImageUploadDone | frontend/src/components/Popup/TeamProfilePopup.jsx:41-55 | a successful upload shows the new image; the upload flag always goes down |
| TeamProfilePopup.ProfileEditor.HandleDeleteProfileImage | frontend/src/components/Popup/TeamProfilePopup.jsx:58-78 | a confirmed, successful delete clears the image; otherwise nothing changes |
| TeamProfilePopup.ProfileEditor.HandleUpdate | frontend/src/components/Popup/TeamProfilePopup.jsx:80-111 | a blank name is refused before any request; a success hands back the team with the edited fields |
| TeamProfilePopup.ClearedImageShowsAvatar | frontend/src/components/Popup/TeamProfilePopup.jsx:68 | after the image is cleared the avatar shows |
| ServiceIntro.SolutionsWellFormed | frontend/src/pages/ServiceIntro/ServiceIntro.jsx:24-85 | five solutions, each with 1 to 6 screenshots and one caption per screenshot |
| ServiceIntro.SlideCount | frontend/src/pages/ServiceIntro/ServiceIntro.jsx:139 | a solution has 1 to 6 slides, as many as captions |
| ServiceIntro.Viewer.constructor | frontend/src/pages/ServiceIntro/ServiceIntro.jsx:114-115 | the first solution's first slide |
| ServiceIntro.Viewer.ShownImage | frontend/src/pages/ServiceIntro/ServiceIntro.jsx:192 | once the reset has run, the shown image is the active solution's current screenshot |
| ServiceIntro.Viewer.ShownCaption | frontend/src/pages/ServiceIntro/ServiceIntro.jsx:206 | a caption is shown exactly when an image is |
| ServiceIntro.Viewer.SelectSolution | frontend/src/pages/ServiceIntro/ServiceIntro.jsx:174 | the solution changes at once, the slide only when the reset runs |
| ServiceIntro.Viewer.ResetEffect | frontend/src/pages/ServiceIntro/ServiceIntro.jsx:134-136 | a pending reset goes back to the first slide |
| ServiceIntro.Viewer.NextSlide | frontend/src/pages/ServiceIntro/ServiceIntro.jsx:138-142 | one step on unless at the last slide, exactly when the next button is enabled |
| ServiceIntro.Viewer.PrevDisabled | frontend/src/pages/ServiceIntro/ServiceIntro.jsx:187 | the previous button is disabled exactly on the first slide; `PrevSlide` moves exactly when it is enabled |
| ServiceIntro.Viewer.NextDisabled | frontend/src/pages/ServiceIntro/ServiceIntro.jsx:201 | the next button is disabled exactly on the last slide of the active solution; `NextSlide` moves exactly when it is enabled |
| ServiceIntro.Viewer.PrevSlide | frontend/src/pages/ServiceIntro/ServiceIntro.jsx:143-147 | one step back unless at the first slide, exactly when the previous button is enabled |
| ServiceIntro.StaleSlideAfterSwitch | frontend/src/pages/ServiceIntro/ServiceIntro.jsx:134-206 | switching from the sixth slide to a two-slide solution renders once with no image before the reset |

## Left out

- Network requests (`fetch`, axios), the WebSocket objects, timers, `localStorage`, `alert`, `confirm` and navigation are not called; their results are parameters of the handlers (`ok`, `resolved`, `confirmed`, response datatypes), and the delays themselves are not modelled.
- React's rendering, effect scheduling and the react-query cache internals are not modelled; a component's state is its class fields, and each effect or callback is a method called at the point it runs.
- Case mapping (`toLowerCase`, `toUpperCase`) covers ASCII letters only; other characters are left unchanged. That is exact for the Korean labels the components compare, but team and user names are free text, where JavaScript also maps other letters, some to several characters (`"ß".toUpperCase()` is `"SS"`).
- ColorUtils.ColorIgnoresCase: holds for the ASCII case mapping only; in JavaScript `"ß"` and `"SS"` lower-case to different texts and get different colours.
- TeamProfilePopup.Initial: the initial has one character under the ASCII case mapping only; in JavaScript the initial of `"ß"` is `"SS"`.
- TeamProfilePopup.InitialIgnoresCase: holds for the ASCII case mapping only; in JavaScript `"ß"` and `"SS"` have the initials `"SS"` and `"S"`.
- TeamProfilePopup.AvatarIgnoresCase: holds for the ASCII case mapping only, for the two reasons above.
- Numbers are integers or `NaN`: `Number()` of a text with a fraction or an exponent, or of `Infinity` with or without a sign, gives `NaN` in the model, and floating-point values and infinities are not represented. The `0x`, `0o` and `0b` prefixes are read as in JavaScript. `TeamSpace.NonNumericRouteNeverActive` is stated only for texts that are `NaN` in JavaScript too.
- ColorUtils.GetColorForName: the unwrapped hash is an unbounded integer. Each step moves it by at most 2^32 (`ColorHash.UnwrappedHashMagnitude`), so the source's double stays exact below 2^53 for names of fewer than 2^21 code units; the precision loss of longer names is not reproduced.
- `charAt(0)` on a character outside the Basic Multilingual Plane returns half a surrogate pair; `TeamProfilePopup.Initial` takes the whole character.
- Dates: the calendar's `formatDate` and the week ranges of the main page are a `dateKey` parameter, not computed.
- TeamProfilePopup.ProfileEditor: its editing methods require the manager flag (and no upload in progress), since the inputs are rendered only then; the popup's leave and team-delete handlers (113-163) only issue requests and close the popup, and are not modelled.
- The team name is taken to be a string; `teamName` of another type is not modelled.
- `MainPage`'s team-created handler after the component has unmounted, and its crash path, are not modelled.
- File download, preview opening and the size display in megabytes of the popups, and `getContrastColor` (floating-point luminance) are not modelled.
- `MainTodoPopup`'s `canUpload` is the same check as the detail popup's and is modelled once, as `DetailTodoPopup.CanUpload`.
- `NotificationPanel`'s own socket setup and teardown follow the sidebar's pattern and are not modelled separately; its count forwarding is `NotificationPanel.ForwardedCount`.
- ServiceIntro.Viewer.ShownImage: the transient render between a change of solution and its reset effect is modelled by the `resetPending` flag; its contract states the image only once the reset has run.
- The board's own `generateCategoryColor` is the same code as the calendar's and is modelled once, in `TodoCalendar`.
- TodoCalendar.ChosenColor: built on the corrected `CategoryColor`. For a category whose `String(catId)` hashes to -2^31 (id 539019926) and has no usable stored colour, the source gives `hsl(128, 95%, undefined%)` and this member gives `hsl(128, 95%, 75%)`. `TodoCalendar.AsWrittenAgreesOffEdge` proves the two agree on every other id, and `TodoCalendar.AsWrittenAtEdge` states both outputs at the edge.
- TodoCalendar.ResolveColor: built on `TodoCalendar.ChosenColor`, so it has the same difference at the edge hash -2^31.
- TodoCalendar.Calendar.GetCategoryColor: returns and caches the `TodoCalendar.ResolveColor` colour, so it has the same difference at the edge hash -2^31.
- TodoBoard.GetBGColor: its fallback is the corrected `CategoryColor`. At the edge hash -2^31 the source's background is `hsla(128, 95%, undefined%, 0.13)` and this member's uses 75%. `TodoCalendar.AsWrittenAgreesOffEdge` and `TodoCalendar.AsWrittenAtEdge` give the exact difference.
- TodoBoard.GeneratedBackground: states the corrected `CategoryHsl`, so it has the same difference at the edge hash -2^31.
- TodoBoard.NormalizeCategory: a category's `todos` is an array, missing, `null` or `undefined`. Any other value (`false`, `0`, `""`, or a truthy non-array) makes `?.map` throw at `TodoBoard.jsx:98`; that error path is not modelled.
- TodoCalendar.CategoryEvents: for the same reason, the falsy `todos` values `false`, `0` and `""`, which `(category.todos || [])` at `TodoCalendar.jsx:313` reads as empty, are not represented, and the throw of `.map` on a truthy non-array `todos` is not modelled.
- EditTodoPopup.TextOr: the form's fields are text, so a truthy field that is not a string (a number title, say) is held as its `String` form, where `handleEditTodo` at `TodoBoard.jsx:445-448` keeps the raw value; the input shows the same text, but an untouched field is sent in the update body (`TodoBoard.jsx:468-471`) as the raw value, a JSON number rather than a string, which the model does not distinguish.
- DetailTodoPopup.RequiredExt: requires `fileForm` to be a string, `null` or `undefined`. A number or boolean makes `toLowerCase` throw at `DetailTodoPopup.jsx:107` and `:143`; that throw is not modelled, `DetailTodoPopup.NeedsConvertVersusDiffers` and `DetailTodoPopup.DetailPopup.HandleFileSelect` carry the same requirement, and `DetailTodoPopup.DetailPopup.HandleFileUpload` takes the required format as already read.
- MainPage.ColorCache.GetConsistentColor: the cache is a map from names. In the source it is a plain object, so for a category named `constructor` or `toString` the inherited function is truthy and is returned as the colour; and `todo.catName || todo.categoryName` at `Main.jsx:296-297` can be `undefined`, on which `seed.length` throws. Neither is modelled.
- SidebarProfile.SidebarSocket: the class follows the corrected teardown; the code as written is `SidebarProfile.Step`, about which the findings below are proved.

## Findings

| source | as written | input that shows it | evidently intended | confidence | as-written member | corrected member |
|---|---|---|---|---|---|---|
| frontend/src/components/TodoCalendar/TodoCalendar.jsx:40-65 | `Math.abs(hash)` of -2^31 stays 2^31, so `(absHash >> 2) % 3` is -2 and the lightness option is `undefined` | category id `539019926` hashes to -2^31 and gets `hsl(128, 95%, undefined%)` | a lightness from the options for every id | not executed | TodoCalendar.CategoryColorAsWrittenFails | TodoCalendar.GenerateCategoryColor |
| frontend/src/components/TodoPopup/DetailTodoPopup.jsx:25-117 | `selectedFiles` starts as `null`, so `selectedFiles.length` in the upload section and `[...prev, ...newItems]` throw | any user who may upload opening the popup | an empty selection to start with | not executed | DetailTodoPopup.FirstRenderThrows | DetailTodoPopup.DetailPopup.HandleFileSelect |
| frontend/src/components/SidebarProfile/SidebarProfile.jsx:72-80 | teardown closes the socket without detaching `onclose`, so the close event schedules a reconnect after unmount | mount with user 7, open, unmount, close, timer: a second socket is opened | no socket after unmount | not executed | SidebarProfile.ReconnectsAfterUnmount | SidebarProfile.NoSocketAfterUnmount |
| frontend/src/components/Popup/ChangePasswordPopup.jsx:56-64 | both validity flags start `true` and are only updated on typing, so the untouched form passes | send code, verify, press change: the empty password is sent | only a password meeting the rule is sent | not executed | ChangePasswordPopup.EmptyPasswordSent | ChangePasswordPopup.PasswordPopup.ChangePasswordChecked |
| frontend/src/components/Popup/ChangeNamePopup.jsx:16-17 | `nameValid` starts `true` and is only updated on typing, so the untouched field passes | open and submit: the empty name is sent | only a name meeting the rule is sent | not executed | ChangeNamePopup.EmptyNameSent | ChangeNamePopup.NamePopup.HandleSubmitChecked |
