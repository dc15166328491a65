/**
 * The main page: the colour badge of a category name and its cache, the
 * weekly to-do lists of every team shaped for display, the filter that keeps
 * the signed-in user's own to-dos, the member-name text, and the guard that
 * lets the initial load run once.
 */
module MainPage {
  import opened JsCore
  import opened ColorHash
  import opened Records

  // ---------------------------------------------------------------------
  // generateConsistentColor / getConsistentColor

  /** Hue, saturation and lightness read out of the 32-bit hash. */
  function ConsistentHsl(hash: int): (c: Hsl)
    ensures 0 <= c.hue < 360
    ensures 20 <= c.saturation <= 40
    ensures 70 <= c.lightness <= 90
  {
    Hsl(Abs(hash) % 360, 20 + Abs(hash) % 21, 70 + Abs(hash) % 21)
  }

  /** The colour of a category name. */
  function ConsistentColor(seed: string): string {
    HslText(ConsistentHsl(WrappedHash(Utf16(seed))))
  }

  /** `generateConsistentColor(seed)` */
  method GenerateConsistentColor(seed: string) returns (color: string)
    ensures color == ConsistentColor(seed)
  {
    var hash := ComputeWrappedHash(Utf16(seed));
    var hue := Abs(hash) % 360;
    var saturation := 20 + Abs(hash) % 21;
    var lightness := 70 + Abs(hash) % 21;
    color := HslText(Hsl(hue, saturation, lightness));
  }

  /** A colour text is never empty, so a cached colour is always truthy. */
  lemma ConsistentColorNonEmpty(seed: string)
    ensures ConsistentColor(seed) != ""
  {
    var c := ConsistentHsl(WrappedHash(Utf16(seed)));
    HslShape(IntToString(c.hue), IntToString(c.saturation), IntToString(c.lightness));
  }

  /** The `categoryColorMap` state of the page. */
  class ColorCache {
    var categoryColorMap: map<string, string>

    /** Every cached colour is the generated colour of its name. */
    predicate Valid()
      reads this
    {
      forall name :: name in categoryColorMap ==> categoryColorMap[name] == ConsistentColor(name)
    }

    constructor()
      ensures categoryColorMap == map[]
      ensures Valid()
    {
      categoryColorMap := map[];
    }

    /** `getConsistentColor(name)`: a truthy cached colour is returned as is;
        otherwise the colour is generated and recorded. */
    method GetConsistentColor(name: string) returns (color: string)
      modifies this
      ensures name in old(categoryColorMap) && old(categoryColorMap)[name] != "" ==>
        color == old(categoryColorMap)[name] && categoryColorMap == old(categoryColorMap)
      ensures !(name in old(categoryColorMap) && old(categoryColorMap)[name] != "") ==>
        color == ConsistentColor(name) && categoryColorMap == old(categoryColorMap)[name := color]
      ensures old(Valid()) ==> Valid() && color == ConsistentColor(name)
    {
      if name in categoryColorMap && categoryColorMap[name] != "" {
        return categoryColorMap[name];
      }
      color := GenerateConsistentColor(name);
      categoryColorMap := categoryColorMap[name := color];
    }
  }

  // ---------------------------------------------------------------------
  // fetchAllTeamsWeeklyTodos

  datatype Team = Team(teamId: Scalar, teamName: Scalar)

  /** What the weekly request of one team came back with: the decoded body
      (`None` for a falsy body), or a thrown error. */
  datatype WeeklyFetch = Fetched(body: Option<seq<Todo>>) | Failed

  datatype TeamTodos = TeamTodos(teamId: Scalar, teamName: Scalar, todos: seq<Todo>)

  /** The entry of one team: `fetchTeamWeeklyTodos` throws before any request
      when the token or the team id is falsy, and every error becomes an
      empty list. */
  function TeamEntry(team: Team, token: Scalar, fetch: Scalar -> WeeklyFetch): (e: TeamTodos)
    ensures e.teamId == team.teamId && e.teamName == team.teamName
    ensures !Truthy(token) || !Truthy(team.teamId) ==> e.todos == []
    ensures fetch(team.teamId).Failed? ==> e.todos == []
  {
    var todos :=
      if !Truthy(token) || !Truthy(team.teamId) then []
      else match fetch(team.teamId)
        case Failed => []
        case Fetched(body) => if body.Some? then body.value else [];
    TeamTodos(team.teamId, team.teamName, todos)
  }

  function TeamEntries(teams: seq<Team>, token: Scalar, fetch: Scalar -> WeeklyFetch): (es: seq<TeamTodos>)
    ensures |es| == |teams|
    ensures forall i :: 0 <= i < |teams| ==> es[i] == TeamEntry(teams[i], token, fetch)
  {
    seq(|teams|, i requires 0 <= i < |teams| => TeamEntry(teams[i], token, fetch))
  }

  predicate HasTodos(e: TeamTodos) {
    |e.todos| > 0
  }

  /** The result of `fetchAllTeamsWeeklyTodos`. */
  function WeeklyTodos(teams: seq<Team>, token: Scalar, fetch: Scalar -> WeeklyFetch): (r: seq<TeamTodos>)
    ensures teams == [] ==> r == []
    ensures |r| <= |teams|
    ensures forall e :: e in r ==> |e.todos| > 0
    ensures forall e :: e in r ==> exists i :: 0 <= i < |teams| && e == TeamEntry(teams[i], token, fetch)
    ensures forall i :: 0 <= i < |teams| && HasTodos(TeamEntry(teams[i], token, fetch)) ==>
      TeamEntry(teams[i], token, fetch) in r
  {
    if teams == [] then []
    else
      var es := TeamEntries(teams, token, fetch);
      assert forall e :: e in es ==> exists i :: 0 <= i < |teams| && e == TeamEntry(teams[i], token, fetch) by {
        forall e | e in es
          ensures exists i :: 0 <= i < |teams| && e == TeamEntry(teams[i], token, fetch)
        {
          var i :| 0 <= i < |es| && es[i] == e;
        }
      }
      Filter(es, HasTodos)
  }

  /** The entries keep the order of the teams: the teams of a joined list
      give the joined entries. */
  lemma WeeklyTodosSplits(xs: seq<Team>, ys: seq<Team>, token: Scalar, fetch: Scalar -> WeeklyFetch)
    ensures WeeklyTodos(xs + ys, token, fetch) == WeeklyTodos(xs, token, fetch) + WeeklyTodos(ys, token, fetch)
  {
    if xs == [] {
      assert xs + ys == ys;
    } else if ys == [] {
      assert xs + ys == xs;
    } else {
      assert TeamEntries(xs + ys, token, fetch) == TeamEntries(xs, token, fetch) + TeamEntries(ys, token, fetch);
      FilterAppend(TeamEntries(xs, token, fetch), TeamEntries(ys, token, fetch), HasTodos);
    }
  }

  /** One team gives its entry exactly when the entry has to-dos. */
  lemma WeeklyTodosOfOne(team: Team, token: Scalar, fetch: Scalar -> WeeklyFetch)
    ensures var e := TeamEntry(team, token, fetch);
      WeeklyTodos([team], token, fetch) == if HasTodos(e) then [e] else []
  {
    var es := TeamEntries([team], token, fetch);
    assert es == [TeamEntry(team, token, fetch)];
    assert es[1..] == [];
  }

  /** Entries keep the order of the teams: when every team has to-dos, there
      is one entry per team, the i-th for the i-th team. */
  lemma WeeklyTodosInTeamOrder(teams: seq<Team>, token: Scalar, fetch: Scalar -> WeeklyFetch)
    requires forall i :: 0 <= i < |teams| ==> HasTodos(TeamEntry(teams[i], token, fetch))
    ensures var r := WeeklyTodos(teams, token, fetch);
      |r| == |teams| && forall i :: 0 <= i < |teams| ==> r[i].teamId == teams[i].teamId
  {
    if teams != [] {
      var es := TeamEntries(teams, token, fetch);
      FilterAll(es, HasTodos);
    }
  }

  /** Without a token nothing is requested and no entry survives. */
  lemma WeeklyTodosWithoutToken(teams: seq<Team>, token: Scalar, fetch: Scalar -> WeeklyFetch)
    requires !Truthy(token)
    ensures WeeklyTodos(teams, token, fetch) == []
  {
    if teams != [] {
      FilterNone(TeamEntries(teams, token, fetch), HasTodos);
    }
  }

  // ---------------------------------------------------------------------
  // myTodos

  /** `Number(localStorage.getItem('userId') || 0)`: `stored` is `Null` when
      the key is missing. */
  function StoredUserId(stored: Scalar): (u: Scalar)
    ensures u.Num? || u.NaN?
    ensures !Truthy(stored) ==> u == Num(0)
  {
    ToNumber(if Truthy(stored) then stored else Num(0))
  }

  /** `Array.isArray(todo.assignees) && todo.assignees.some(id => String(id) === String(userId))` */
  predicate AssignedTo(todo: Todo, userId: Scalar) {
    todo.assignees.Some? && exists id :: id in todo.assignees.value && StrEq(id, userId)
  }

  /** `todos.filter(...)`: the to-dos assigned to the user. */
  function MyTodos(todos: seq<Todo>, userId: Scalar): (r: seq<Todo>)
    ensures forall t :: t in r <==> t in todos && AssignedTo(t, userId)
  {
    Filter(todos, (t: Todo) => AssignedTo(t, userId))
  }

  /** Boards rendered: a team whose own list is empty renders nothing. */
  function RenderedBoards(weekly: seq<TeamTodos>, userId: Scalar): (r: seq<TeamTodos>)
    ensures forall e :: e in r <==> e in weekly && |MyTodos(e.todos, userId)| > 0
  {
    Filter(weekly, (e: TeamTodos) => |MyTodos(e.todos, userId)| > 0)
  }

  /** String comparison: a numeric id and its decimal text both match the
      user, and a to-do without an assignee array is nobody's. */
  lemma AssignedToEitherForm(todo: Todo, u: int)
    requires todo.assignees.Some?
    requires Num(u) in todo.assignees.value || Str(IntToString(u)) in todo.assignees.value
    ensures AssignedTo(todo, Num(u))
  {
    if Num(u) in todo.assignees.value {
      assert StrEq(Num(u), Num(u));
    } else {
      assert StrEq(Str(IntToString(u)), Num(u));
    }
  }

  // ---------------------------------------------------------------------
  // getMemberName

  /** The `ids` argument: an array, or any other value. */
  datatype Ids = IdArray(elements: seq<Scalar>) | NotArray(value: Scalar)

  /** `Array.prototype.join` renders `null` and `undefined` as "". */
  function JoinText(v: Scalar): (t: string)
    ensures v.Undef? || v.Null? ==> t == ""
    ensures !(v.Undef? || v.Null?) ==> t == ToStr(v)
  {
    if v.Undef? || v.Null? then "" else ToStr(v)
  }

  function JoinTexts(vs: seq<Scalar>): (ts: seq<string>)
    ensures |ts| == |vs|
    ensures forall i :: 0 <= i < |vs| ==> ts[i] == JoinText(vs[i])
  {
    seq(|vs|, i requires 0 <= i < |vs| => JoinText(vs[i]))
  }

  /** `Array.isArray(ids) ? ids.join(', ') : ids` */
  function MemberName(ids: Ids): (r: Scalar)
    ensures ids.NotArray? ==> r == ids.value
    ensures ids.IdArray? ==> r == Str(Join(JoinTexts(ids.elements), ", "))
  {
    match ids
    case IdArray(vs) => Str(Join(JoinTexts(vs), ", "))
    case NotArray(v) => v
  }

  /** A one-element array gives its element's text; an empty one gives "". */
  lemma MemberNameShortArrays(v: Scalar)
    ensures MemberName(IdArray([])) == Str("")
    ensures MemberName(IdArray([v])) == Str(JoinText(v))
  {
    assert JoinTexts([v]) == [JoinText(v)];
  }

  // ---------------------------------------------------------------------
  // initializeData / handleCreated

  /** The events that reach the `hasInitialized` guard: the mount effect
      (`authorised` when a token and a user id are stored) and a new team. */
  datatype InitEvent = Mount(authorised: bool) | Created

  /** The guard after one event, and whether the load ran. */
  function GuardStep(hasInitialized: bool, ev: InitEvent): (r: (bool, bool))
    ensures r.1 <==> ev.Mount? && ev.authorised && !hasInitialized
    ensures ev.Created? ==> !r.0
    ensures ev.Mount? ==> r.0 == (hasInitialized || ev.authorised)
  {
    match ev
    case Mount(ok) => if !ok || hasInitialized then (hasInitialized, false) else (true, true)
    case Created => (false, false)
  }

  /** Number of loads a sequence of events runs. */
  function Loads(hasInitialized: bool, evs: seq<InitEvent>): nat
    decreases |evs|
  {
    if evs == [] then 0
    else
      var (g, ran) := GuardStep(hasInitialized, evs[0]);
      (if ran then 1 else 0) + Loads(g, evs[1..])
  }

  function Resets(evs: seq<InitEvent>): nat {
    Count(evs, (e: InitEvent) => e.Created?)
  }

  /** The load runs at most once, plus once after each reset. */
  lemma {:induction false} LoadsBoundedByResets(hasInitialized: bool, evs: seq<InitEvent>)
    ensures Loads(hasInitialized, evs) <= (if hasInitialized then 0 else 1) + Resets(evs)
    decreases |evs|
  {
    if evs != [] {
      var (g, ran) := GuardStep(hasInitialized, evs[0]);
      LoadsBoundedByResets(g, evs[1..]);
      assert evs == [evs[0]] + evs[1..];
      FilterAppend([evs[0]], evs[1..], (e: InitEvent) => e.Created?);
    }
  }

  /** The `hasInitialized` ref. */
  class InitGuard {
    var hasInitialized: bool

    constructor()
      ensures !hasInitialized
    {
      hasInitialized := false;
    }

    /** The mount effect: unauthorised visitors are sent to the login page;
        otherwise `initializeData`, whose body runs only once. */
    method OnMount(authorised: bool) returns (ran: bool)
      modifies this
      ensures (hasInitialized, ran) == GuardStep(old(hasInitialized), Mount(authorised))
    {
      ran := false;
      if !authorised {
        return;
      }
      if hasInitialized {
        return;
      }
      hasInitialized := true;
      ran := true;
    }

    /** `handleCreated` re-arms the guard. */
    method HandleCreated()
      modifies this
      ensures (hasInitialized, false) == GuardStep(old(hasInitialized), Created)
    {
      hasInitialized := false;
    }
  }
}
