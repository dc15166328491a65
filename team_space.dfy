/**
 * The team space page: the Authorization header every request carries,
 * the member list with managers first, the team file list and its delete,
 * and the view state the team list, the tabs, the route and the invite
 * popup switch between.
 */
module TeamSpace {
  import opened JsCore
  import opened Records

  // ---------------------------------------------------------------------
  // getAuthHeaders

  const BearerPrefix: string := "Bearer "

  /** The Authorization value for the stored token (`None` when
      `localStorage` has none): `Bearer ` is added unless already there. */
  function AuthValue(token: Option<string>): (r: string)
    ensures StartsWith(r, BearerPrefix)
    ensures token.Some? && StartsWith(token.value, BearerPrefix) ==> r == token.value
    ensures token.None? ==> r == BearerPrefix
    ensures token.Some? && !StartsWith(token.value, BearerPrefix) ==> r == BearerPrefix + token.value
  {
    var tokenString := if token.Some? then token.value else "";
    if StartsWith(tokenString, BearerPrefix) then tokenString else BearerPrefix + tokenString
  }

  /** Storing the header value and building the header again changes
      nothing: the prefix is never doubled. */
  lemma AuthValueIdempotent(token: Option<string>)
    ensures AuthValue(Some(AuthValue(token))) == AuthValue(token)
  {
  }

  /** A bare token is sent after exactly one prefix, and can be read back. */
  lemma AuthValueOfBareToken(token: string)
    requires !StartsWith(token, BearerPrefix)
    ensures AuthValue(Some(token))[|BearerPrefix|..] == token
  {
  }

  // ---------------------------------------------------------------------
  // The member list

  /** `m.manager === true` */
  predicate IsManager(m: Member) {
    StrictEq(m.manager, Bool(true))
  }

  predicate NotManager(m: Member) {
    !IsManager(m)
  }

  /** A test and its negation split a list into two parts that together
      hold every element once. */
  lemma {:induction false} FilterComplement<T>(xs: seq<T>, p: T -> bool, q: T -> bool)
    requires forall x :: q(x) == !p(x)
    ensures multiset(Filter(xs, p)) + multiset(Filter(xs, q)) == multiset(xs)
    ensures |Filter(xs, p)| + |Filter(xs, q)| == |xs|
  {
    if xs != [] {
      FilterComplement(xs[1..], p, q);
      assert xs == [xs[0]] + xs[1..];
    }
  }

  /** What the stable `sort` by `(b.manager === true) - (a.manager === true)`
      produces: the managers, then everyone else, each group in the order
      the server sent. */
  function ManagersFirst(data: seq<Member>): (r: seq<Member>)
    ensures |r| == |data|
  {
    FilterComplement(data, IsManager, NotManager);
    Filter(data, IsManager) + Filter(data, NotManager)
  }

  /** Every manager comes before every other member. */
  lemma ManagersPrecedeOthers(data: seq<Member>)
    ensures forall i, j ::
      (0 <= i < j < |ManagersFirst(data)| && IsManager(ManagersFirst(data)[j]))
      ==> IsManager(ManagersFirst(data)[i])
  {
    var ms := Filter(data, IsManager);
    var os := Filter(data, NotManager);
    var r := ManagersFirst(data);
    assert forall k :: |ms| <= k < |r| ==> r[k] == os[k - |ms|] && r[k] in os;
    assert forall k :: 0 <= k < |ms| ==> r[k] == ms[k] && r[k] in ms;
  }

  /** The sorted list holds the same members, as many times each. */
  lemma ManagersFirstIsPermutation(data: seq<Member>)
    ensures multiset(ManagersFirst(data)) == multiset(data)
  {
    FilterComplement(data, IsManager, NotManager);
  }

  /** Sorting a list already in that order changes nothing. */
  lemma ManagersFirstIdempotent(data: seq<Member>)
    ensures ManagersFirst(ManagersFirst(data)) == ManagersFirst(data)
  {
    ManagersOfSorted(data);
    OthersOfSorted(data);
  }

  lemma ManagersOfSorted(data: seq<Member>)
    ensures Filter(ManagersFirst(data), IsManager) == Filter(data, IsManager)
  {
    var ms := Filter(data, IsManager);
    var os := Filter(data, NotManager);
    FilterAppend(ms, os, IsManager);
    FilterAll(ms, IsManager);
    FilterNone(os, IsManager);
  }

  lemma OthersOfSorted(data: seq<Member>)
    ensures Filter(ManagersFirst(data), NotManager) == Filter(data, NotManager)
  {
    var ms := Filter(data, IsManager);
    var os := Filter(data, NotManager);
    FilterAppend(ms, os, NotManager);
    FilterNone(ms, NotManager);
    FilterAll(os, NotManager);
  }

  /** `Filter` read from the end: the form a left-to-right pass builds. */
  function FilterUpTo<T>(xs: seq<T>, p: T -> bool): seq<T>
    decreases |xs|
  {
    if xs == [] then []
    else FilterUpTo(xs[..|xs| - 1], p) + (if p(xs[|xs| - 1]) then [xs[|xs| - 1]] else [])
  }

  lemma {:induction false} FilterUpToIsFilter<T>(xs: seq<T>, p: T -> bool)
    ensures FilterUpTo(xs, p) == Filter(xs, p)
    decreases |xs|
  {
    if xs != [] {
      var n := |xs| - 1;
      FilterUpToIsFilter(xs[..n], p);
      assert xs == xs[..n] + [xs[n]];
      FilterAppend(xs[..n], [xs[n]], p);
    }
  }

  /** One more element read by the pass. */
  lemma FilterUpToStep<T>(xs: seq<T>, i: nat, p: T -> bool)
    requires i < |xs|
    ensures FilterUpTo(xs[..i + 1], p) == FilterUpTo(xs[..i], p) + (if p(xs[i]) then [xs[i]] else [])
  {
    assert xs[..i + 1][..i] == xs[..i];
  }

  /** The first pass of the sort: the managers move to the front, in order;
      the slots after them are not yet written. */
  method PlaceManagers(a: array<Member>, data: seq<Member>) returns (k: nat)
    requires a[..] == data
    modifies a
    ensures k <= a.Length
    ensures a[..k] == Filter(data, IsManager)
  {
    k := 0;
    var i := 0;
    while i < a.Length
      invariant 0 <= i <= a.Length && k <= i
      invariant a.Length == |data|
      invariant a[..k] == FilterUpTo(data[..i], IsManager)
    {
      FilterUpToStep(data, i, IsManager);
      if IsManager(data[i]) {
        a[k] := data[i];
        assert a[..k + 1] == a[..k] + [data[i]];
        k := k + 1;
      }
      i := i + 1;
    }
    assert data[..i] == data;
    FilterUpToIsFilter(data, IsManager);
  }

  /** A prefix keeps no more elements than the whole list. */
  lemma {:induction false} FilterUpToPrefix<T>(xs: seq<T>, i: nat, p: T -> bool)
    requires i <= |xs|
    ensures |FilterUpTo(xs[..i], p)| <= |FilterUpTo(xs, p)|
    decreases |xs|
  {
    if i < |xs| {
      var n := |xs| - 1;
      assert xs[..n][..i] == xs[..i];
      FilterUpToPrefix(xs[..n], i, p);
    } else {
      assert xs[..i] == xs;
    }
  }

  /** The second pass reads one more member: an other member is written at
      slot `k`, which is still inside the array. */
  lemma OthersStep(data: seq<Member>, split: nat, i: nat, placed: seq<Member>)
    requires i < |data| && split + |FilterUpTo(data, NotManager)| == |data|
    requires placed == FilterUpTo(data[..i], NotManager)
    ensures NotManager(data[i]) ==> split + |placed| < |data|
    ensures FilterUpTo(data[..i + 1], NotManager) == placed + (if NotManager(data[i]) then [data[i]] else [])
  {
    FilterUpToStep(data, i, NotManager);
    FilterUpToPrefix(data, i + 1, NotManager);
  }

  /** The second pass: the other members fill the slots after `split`, in
      order. */
  method PlaceOthers(a: array<Member>, data: seq<Member>, split: nat)
    requires a.Length == |data| && split + |FilterUpTo(data, NotManager)| == |data|
    modifies a
    ensures a[..split] == old(a[..split])
    ensures a[split..] == FilterUpTo(data, NotManager)
  {
    var k := split;
    var i := 0;
    while i < a.Length
      invariant 0 <= i <= a.Length && split <= k <= a.Length
      invariant a[..split] == old(a[..split])
      invariant a[split..k] == FilterUpTo(data[..i], NotManager)
    {
      ghost var placed := a[split..k];
      OthersStep(data, split, i, placed);
      if NotManager(data[i]) {
        a[k] := data[i];
        assert a[split..k + 1] == placed + [data[i]];
        k := k + 1;
      } else {
        assert placed + [] == placed;
      }
      i := i + 1;
    }
    assert data[..i] == data;
  }

  /** A list whose first `split` entries are the managers and whose rest
      are the others is the sorted list. */
  lemma SortedSplit(result: seq<Member>, data: seq<Member>, split: nat)
    requires split <= |result|
    requires result[..split] == Filter(data, IsManager)
    requires result[split..] == Filter(data, NotManager)
    ensures result == ManagersFirst(data)
  {
    assert result == result[..split] + result[split..];
  }

  /** `data.sort(..)`, in place. */
  method SortMembers(a: array<Member>)
    modifies a
    ensures a[..] == ManagersFirst(old(a[..]))
  {
    var data := a[..];
    var split := PlaceManagers(a, data);
    FilterComplement(data, IsManager, NotManager);
    FilterUpToIsFilter(data, NotManager);
    PlaceOthers(a, data, split);
    SortedSplit(a[..], data, split);
  }

  // ---------------------------------------------------------------------
  // Team files

  /** The shapes the storage response can take. */
  datatype FilesData = FilesObject(files: Option<seq<Scalar>>) | FilesArray(items: seq<Scalar>) | OtherData

  /** The outcome of the storage request: not OK, a failure to read the
      body, or the decoded body. */
  datatype FilesResponse = NotOk | Unreadable | Ok(data: FilesData)

  /** `fetchTeamFiles`: `data.files` when it is an array, else `data` when
      it is an array, else nothing. */
  function TeamFilesOf(resp: FilesResponse): (r: seq<Scalar>)
    ensures resp.NotOk? || resp.Unreadable? ==> r == []
    ensures resp.Ok? && resp.data.FilesObject? && resp.data.files.Some? ==> r == resp.data.files.value
    ensures resp.Ok? && resp.data.FilesArray? ==> r == resp.data.items
    ensures resp.Ok? && resp.data.OtherData? ==> r == []
  {
    match resp
    case NotOk => []
    case Unreadable => []
    case Ok(data) =>
      match data
      case FilesObject(files) => if files.Some? then files.value else []
      case FilesArray(items) => items
      case OtherData => []
  }

  /** `files.filter(f => f !== filename)` */
  function WithoutFile(files: seq<Scalar>, filename: Scalar): (r: seq<Scalar>)
    ensures forall f :: f in r <==> f in files && !StrictEq(f, filename)
  {
    Filter(files, (f: Scalar) => !StrictEq(f, filename))
  }

  /** Deleting a name that is not listed leaves the list as it was. */
  lemma WithoutAbsentFile(files: seq<Scalar>, filename: Scalar)
    requires forall f :: f in files ==> !StrictEq(f, filename)
    ensures WithoutFile(files, filename) == files
  {
    FilterAll(files, (f: Scalar) => !StrictEq(f, filename));
  }

  /** The delete keeps the order of the rest: it acts on each part of the
      list separately. */
  lemma WithoutFileSplits(xs: seq<Scalar>, ys: seq<Scalar>, filename: Scalar)
    ensures WithoutFile(xs + ys, filename) == WithoutFile(xs, filename) + WithoutFile(ys, filename)
  {
    FilterAppend(xs, ys, (f: Scalar) => !StrictEq(f, filename));
  }

  /** Deleting the same name twice is deleting it once. */
  lemma WithoutFileIdempotent(files: seq<Scalar>, filename: Scalar)
    ensures WithoutFile(WithoutFile(files, filename), filename) == WithoutFile(files, filename)
  {
    WithoutAbsentFile(WithoutFile(files, filename), filename);
  }

  // ---------------------------------------------------------------------
  // The view state

  /** The four tabs. */
  datatype PanelKey = TodoPanel | StoragePanel | MembersPanel | InvitePanel

  /** The active team the route `/team/:teamId` selects: `Number(teamId)`
      when the parameter is present and non-empty, `null` otherwise. */
  function RouteTeamId(teamId: Option<string>): (r: Scalar)
    ensures teamId.None? || teamId.value == [] ==> r == Null
    ensures teamId.Some? && teamId.value != [] ==> r.Num? || r.NaN?
  {
    if teamId.Some? && teamId.value != [] then ToNumber(Str(teamId.value)) else Null
  }

  /** A route naming team `n` selects the same id the sidebar passes for
      that team, so clicking it afterwards is the already-active case. */
  lemma RouteMatchesTeamClick(n: int)
    ensures StrictEq(RouteTeamId(Some(IntToString(n))), Num(n))
  {
    NumberOfString(n);
  }

  /** A route whose id, trimmed, holds a character that no numeric text can
      hold selects `NaN`, which equals no id: every later team click is
      taken as a change of team. */
  lemma NonNumericRouteNeverActive(s: string, tid: Scalar, i: nat)
    requires i < |Trim(s)| && !NumericLiteralChar(Trim(s)[i])
    ensures RouteTeamId(Some(s)) == NaN
    ensures !StrictEq(RouteTeamId(Some(s)), tid)
  {
    ForeignCharIsNaN(s, i);
  }

  /** For instance the route "/team/abc", whose letters are all hexadecimal
      digits but carry no `0x` prefix. */
  lemma LetterRouteNeverActive(tid: Scalar)
    ensures !StrictEq(RouteTeamId(Some("abc")), tid)
  {
    PlainText("abc");
    assert TrimmedToNumber("abc") == NaN by {
      assert !IsDigit("abc"[0]);
      assert PrefixBase("abc") == 0;
    }
  }

  /** A radix literal is a number: the route "/team/0x10" selects team 16. */
  lemma HexRouteSelectsTeam()
    ensures StrictEq(RouteTeamId(Some("0x10")), Num(16))
  {
    PlainText("0x10");
    HexTextValue();
  }

  lemma HexTextValue()
    ensures TrimmedToNumber("0x10") == Num(16)
  {
    var t := "0x10";
    assert !IsDigit(t[1]);
    assert PrefixBase(t) == 16;
    assert t[2..] == "10";
    assert RadixValue("10", 16) == 16 by {
      assert "10"[..1] == "1" && "1"[..0] == [];
    }
  }

  /** A route id without surrounding whitespace is read as it stands. */
  lemma PlainText(t: string)
    requires t != [] && !IsJsWhitespace(t[0]) && !IsJsWhitespace(t[|t| - 1])
    ensures RouteTeamId(Some(t)) == TrimmedToNumber(t)
  {
    TrimKeeps(t);
  }

  /** The outcome of a file delete. */
  datatype DeleteOutcome = Declined | DeleteFailed | FileDeleted

  class TeamView {
    var activeTeamId: Scalar
    var panel: PanelKey
    var showTodoCalendar: bool
    var showInvite: bool
    var inviteOnCreate: bool
    var showTeamInfo: bool
    var isPopupOpen: bool
    var teamFiles: seq<Scalar>
    var fileLoading: bool

    /** The calendar is only ever open on the to-do tab, and the invite tab
        is only ever shown with its invite view open. */
    predicate Valid()
      reads this
    {
      (showTodoCalendar ==> panel == TodoPanel) && (panel == InvitePanel ==> showInvite)
    }

    constructor()
      ensures Valid()
      ensures activeTeamId == Null && panel == TodoPanel && !showTodoCalendar
      ensures !showInvite && !inviteOnCreate && !showTeamInfo && !isPopupOpen
      ensures teamFiles == [] && !fileLoading
    {
      activeTeamId := Null;
      panel := TodoPanel;
      showTodoCalendar := false;
      showInvite := false;
      inviteOnCreate := false;
      showTeamInfo := false;
      isPopupOpen := false;
      teamFiles := [];
      fileLoading := false;
    }

    /** `handleTeamClick`: nothing happens for the team already active;
        another team closes every popup and returns to the to-do tab with
        the calendar hidden. */
    method HandleTeamClick(tid: Scalar)
      requires Valid()
      modifies this
      ensures Valid()
      ensures StrictEq(old(activeTeamId), tid) ==>
        activeTeamId == old(activeTeamId) && panel == old(panel)
        && showTodoCalendar == old(showTodoCalendar) && showInvite == old(showInvite)
        && inviteOnCreate == old(inviteOnCreate) && showTeamInfo == old(showTeamInfo)
        && isPopupOpen == old(isPopupOpen)
      ensures !StrictEq(old(activeTeamId), tid) ==>
        activeTeamId == tid && panel == TodoPanel && !showTodoCalendar
        && !showInvite && !inviteOnCreate && !showTeamInfo && !isPopupOpen
      ensures teamFiles == old(teamFiles) && fileLoading == old(fileLoading)
    {
      if StrictEq(activeTeamId, tid) {
        return;
      }
      activeTeamId := tid;
      showInvite := false;
      inviteOnCreate := false;
      showTeamInfo := false;
      isPopupOpen := false;
      panel := TodoPanel;
      showTodoCalendar := false;
    }

    /** `handlePanelToggle`: the tab is set; the invite tab also opens the
        invite view; any tab but the to-do one hides the calendar. */
    method HandlePanelToggle(key: PanelKey)
      requires Valid()
      modifies this
      ensures Valid()
      ensures panel == key
      ensures showInvite == (old(showInvite) || key == InvitePanel)
      ensures showTodoCalendar == (old(showTodoCalendar) && key == TodoPanel)
      ensures activeTeamId == old(activeTeamId) && inviteOnCreate == old(inviteOnCreate)
      ensures showTeamInfo == old(showTeamInfo) && isPopupOpen == old(isPopupOpen)
      ensures teamFiles == old(teamFiles) && fileLoading == old(fileLoading)
    {
      panel := key;
      if key == InvitePanel {
        showInvite := true;
      }
      if key != TodoPanel {
        showTodoCalendar := false;
      }
    }

    /** `handleInviteClose`: both invite flags are cleared and the to-do
        tab is back. */
    method HandleInviteClose()
      requires Valid()
      modifies this
      ensures Valid()
      ensures !showInvite && !inviteOnCreate && panel == TodoPanel
      ensures showTodoCalendar == old(showTodoCalendar)
      ensures activeTeamId == old(activeTeamId) && showTeamInfo == old(showTeamInfo)
      ensures isPopupOpen == old(isPopupOpen)
      ensures teamFiles == old(teamFiles) && fileLoading == old(fileLoading)
    {
      showInvite := false;
      inviteOnCreate := false;
      panel := TodoPanel;
    }

    /** The effect on `teamId`: a team in the route becomes the active one
        on the to-do tab with the calendar hidden; without one there is no
        active team and the tabs stay as they were. */
    method RouteChanged(teamId: Option<string>)
      requires Valid()
      modifies this
      ensures Valid()
      ensures activeTeamId == RouteTeamId(teamId)
      ensures teamId.Some? && teamId.value != [] ==> panel == TodoPanel && !showTodoCalendar
      ensures teamId.None? || teamId.value == [] ==>
        panel == old(panel) && showTodoCalendar == old(showTodoCalendar)
      ensures showInvite == old(showInvite) && inviteOnCreate == old(inviteOnCreate)
      ensures showTeamInfo == old(showTeamInfo) && isPopupOpen == old(isPopupOpen)
      ensures teamFiles == old(teamFiles) && fileLoading == old(fileLoading)
    {
      if teamId.Some? && teamId.value != [] {
        activeTeamId := RouteTeamId(teamId);
        panel := TodoPanel;
        showTodoCalendar := false;
      } else {
        activeTeamId := RouteTeamId(teamId);
      }
    }

    /** The calendar toggle bar, shown only on the to-do tab. */
    method ShowCalendar()
      requires Valid() && panel == TodoPanel
      modifies this
      ensures Valid()
      ensures showTodoCalendar && panel == old(panel) && showInvite == old(showInvite)
      ensures activeTeamId == old(activeTeamId) && inviteOnCreate == old(inviteOnCreate)
      ensures showTeamInfo == old(showTeamInfo) && isPopupOpen == old(isPopupOpen)
      ensures teamFiles == old(teamFiles) && fileLoading == old(fileLoading)
    {
      showTodoCalendar := true;
    }

    /** The close button beside the calendar. */
    method HideCalendar()
      requires Valid()
      modifies this
      ensures Valid()
      ensures !showTodoCalendar && panel == old(panel) && showInvite == old(showInvite)
      ensures activeTeamId == old(activeTeamId) && inviteOnCreate == old(inviteOnCreate)
      ensures showTeamInfo == old(showTeamInfo) && isPopupOpen == old(isPopupOpen)
      ensures teamFiles == old(teamFiles) && fileLoading == old(fileLoading)
    {
      showTodoCalendar := false;
    }

    /** `fetchTeamFiles`, first half: the loading flag goes up. */
    method StartFetchFiles()
      requires Valid()
      modifies this
      ensures Valid()
      ensures fileLoading
      ensures teamFiles == old(teamFiles) && panel == old(panel) && activeTeamId == old(activeTeamId)
      ensures showTodoCalendar == old(showTodoCalendar) && showInvite == old(showInvite)
      ensures inviteOnCreate == old(inviteOnCreate) && showTeamInfo == old(showTeamInfo)
      ensures isPopupOpen == old(isPopupOpen)
    {
      fileLoading := true;
    }

    /** `fetchTeamFiles`, second half: the list is replaced by what the
        response holds and the loading flag goes down, whatever the
        outcome. */
    method FetchTeamFilesDone(resp: FilesResponse)
      requires Valid()
      modifies this
      ensures Valid()
      ensures teamFiles == TeamFilesOf(resp) && !fileLoading
      ensures panel == old(panel) && activeTeamId == old(activeTeamId)
      ensures showTodoCalendar == old(showTodoCalendar) && showInvite == old(showInvite)
      ensures inviteOnCreate == old(inviteOnCreate) && showTeamInfo == old(showTeamInfo)
      ensures isPopupOpen == old(isPopupOpen)
    {
      teamFiles := TeamFilesOf(resp);
      fileLoading := false;
    }

    /** `handleDeleteFile`: after the confirmation and a successful DELETE
        every entry equal to the name leaves the list; otherwise the list
        stays. */
    method HandleDeleteFile(filename: Scalar, confirmed: bool, ok: bool) returns (outcome: DeleteOutcome)
      requires Valid()
      modifies this
      ensures Valid()
      ensures outcome == Declined <==> !confirmed
      ensures outcome == DeleteFailed <==> confirmed && !ok
      ensures outcome == FileDeleted <==> confirmed && ok
      ensures outcome == FileDeleted ==> teamFiles == WithoutFile(old(teamFiles), filename)
      ensures outcome != FileDeleted ==> teamFiles == old(teamFiles)
      ensures fileLoading == old(fileLoading) && panel == old(panel) && activeTeamId == old(activeTeamId)
      ensures showTodoCalendar == old(showTodoCalendar) && showInvite == old(showInvite)
      ensures inviteOnCreate == old(inviteOnCreate) && showTeamInfo == old(showTeamInfo)
      ensures isPopupOpen == old(isPopupOpen)
    {
      if !confirmed {
        return Declined;
      }
      if !ok {
        return DeleteFailed;
      }
      teamFiles := WithoutFile(teamFiles, filename);
      outcome := FileDeleted;
    }
  }

  /** Opening a team from the route and then clicking that team in the
      sidebar keeps the view as the route left it. */
  method RouteThenClick(n: int) returns (v: TeamView)
    ensures fresh(v) && v.Valid()
    ensures v.activeTeamId == Num(n) && v.panel == TodoPanel && !v.showTodoCalendar
  {
    v := new TeamView();
    v.RouteChanged(Some(IntToString(n)));
    RouteMatchesTeamClick(n);
    v.HandleTeamClick(Num(n));
  }
}
