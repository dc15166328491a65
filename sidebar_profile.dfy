/**
 * The unread-notification badge of the sidebar and the socket that keeps it
 * current. The effect connects once per mount; every socket it creates keeps
 * its handlers, `onclose` (and `onerror` when the latest socket is not
 * open) schedules another `connect` after 3000 ms, and `reconnectTimer`
 * remembers only the last handle. Time is left out: the browser is a
 * sequence of events naming the socket or timer they come from. A socket
 * that fails is CLOSED before its `error` event is fired, and its `close`
 * event follows; each socket delivers `close` at most once.
 *
 * `Step` is the code as written; `StepFixed` detaches the handlers on
 * teardown and clears the previous timer before scheduling a new one, and
 * the `SidebarSocket` class follows it.
 */
module SidebarProfile {
  import opened JsCore
  import opened Records

  /** `WebSocket.readyState` values. */
  const Connecting := 0
  const OpenState := 1
  const Closing := 2
  const ClosedState := 3

  /** `Number(localStorage.getItem('userId')) || 0`; `stored` is `Null` when
      the key is missing. */
  function EffectUserId(stored: Scalar): (u: int)
    ensures u != 0 ==> ToNumber(stored) == Num(u)
    ensures ToNumber(stored).NaN? || ToNumber(stored) == Num(0) ==> u == 0
  {
    var n := ToNumber(stored);
    if n.Num? then n.n else 0
  }

  /** The state the effect's closure and the component share. */
  datatype Sockets = Sockets(
    userId: int,
    realTimeCount: Scalar,
    /** readyState of every socket `connect` created, oldest first */
    readyStates: seq<int>,
    /** the sockets whose `close` event has been delivered */
    closeDelivered: set<nat>,
    /** one entry per `setTimeout(connect, 3000)`, true while pending */
    timers: seq<bool>,
    reconnectTimer: Option<nat>,
    mounted: bool)

  datatype Event =
    | Mounted(stored: Scalar)
    | Opened(socket: nat)
    | Message(socket: nat, frame: CountFrame)
    | Errored(socket: nat)
    | Closed(socket: nat)
    | TimerFired(timer: nat)
    | Unmounted
      /** the unread-count query resolved (`ok` is `res.ok`) */
    | CountFetched(ok: bool, body: Scalar)

  /** Before the effect has run: `realTimeCount` starts at 0. */
  const Initial := Sockets(0, Num(0), [], {}, [], None, true)

  function Connect(s: Sockets): (r: Sockets)
    ensures r.readyStates == s.readyStates + [Connecting]
  {
    s.(readyStates := s.readyStates + [Connecting])
  }

  /** `reconnectTimer = setTimeout(connect, 3000)` */
  function Schedule(s: Sockets): (r: Sockets)
    ensures r.timers == s.timers + [true] && r.reconnectTimer == Some(|s.timers|)
  {
    s.(timers := s.timers + [true], reconnectTimer := Some(|s.timers|))
  }

  /** `clearTimeout(handle)` */
  function ClearTimer(timers: seq<bool>, handle: Option<nat>): (r: seq<bool>)
    ensures |r| == |timers|
    ensures forall t :: 0 <= t < |r| ==> r[t] == (timers[t] && handle != Some(t))
  {
    if handle.Some? && handle.value < |timers| then timers[handle.value := false] else timers
  }

  /** `socketRef.current.close()`: the latest socket starts closing. */
  function CloseLatest(rs: seq<int>): (r: seq<int>)
    ensures |r| == |rs|
  {
    if rs != [] && (rs[|rs| - 1] == Connecting || rs[|rs| - 1] == OpenState)
    then rs[|rs| - 1 := Closing] else rs
  }

  /** The browser delivers `close` for socket `i`: it is CLOSED from now on. */
  function Delivered(s: Sockets, i: nat): (r: Sockets)
    requires i < |s.readyStates|
    ensures r.readyStates == s.readyStates[i := ClosedState]
    ensures r.closeDelivered == s.closeDelivered + {i}
  {
    s.(readyStates := s.readyStates[i := ClosedState], closeDelivered := s.closeDelivered + {i})
  }

  /** One event, as the code is written. */
  function Step(s: Sockets, ev: Event): Sockets {
    var rs := s.readyStates;
    match ev
    case Mounted(stored) =>
      if !s.mounted then s
      else
        var u := EffectUserId(stored);
        if u == 0 then s.(userId := 0) else Connect(s.(userId := u))
    case Opened(i) =>
      if i < |rs| && rs[i] == Connecting then s.(readyStates := rs[i := OpenState]) else s
    case Message(i, f) =>
      if i < |rs| && s.mounted && CountUpdateFor(f, Num(s.userId))
      then s.(realTimeCount := f.unreadCount) else s
    case Errored(i) =>
      if i < |rs| && rs[i] != ClosedState then
        var s1 := s.(readyStates := rs[i := ClosedState]);
        if s1.readyStates[|rs| - 1] != OpenState then Schedule(s1) else s1
      else s
    case Closed(i) =>
      if i < |rs| && i !in s.closeDelivered then Schedule(Delivered(s, i)) else s
    case TimerFired(t) =>
      if t < |s.timers| && s.timers[t] then Connect(s.(timers := s.timers[t := false])) else s
    case Unmounted =>
      if !s.mounted then s
      else s.(readyStates := CloseLatest(rs), timers := ClearTimer(s.timers, s.reconnectTimer), mounted := false)
    case CountFetched(ok, body) =>
      if s.mounted then s.(realTimeCount := if ok then body else Num(0)) else s
  }

  function Run(s: Sockets, evs: seq<Event>): Sockets
    decreases |evs|
  {
    if evs == [] then s else Run(Step(s, evs[0]), evs[1..])
  }

  /** The badge: `realTimeCount > 0`, which converts a string count. */
  predicate BadgeShown(count: Scalar) {
    ToNumber(count).Num? && ToNumber(count).n > 0
  }

  /** A stored id that is missing, zero or not a number opens no socket. */
  lemma NoSocketWithoutUser(stored: Scalar)
    requires ToNumber(stored).NaN? || ToNumber(stored) == Num(0)
    ensures Step(Initial, Mounted(stored)).readyStates == []
  {
  }

  /** The count changes only through a count update for this user, or
      through the unread-count query; unparsable frames, other types and
      other users change nothing. */
  lemma CountChangesOnlyByUpdates(s: Sockets, ev: Event)
    ensures var r := Step(s, ev);
      r.realTimeCount != s.realTimeCount ==>
        (ev.Message? && CountUpdateFor(ev.frame, Num(s.userId)) && r.realTimeCount == ev.frame.unreadCount)
        || (ev.CountFetched? && r.realTimeCount == (if ev.ok then ev.body else Num(0)))
  {
  }

  /** A matching frame on a live socket sets the count, and a failed query
      hides the badge. */
  lemma CountUpdates(s: Sockets, i: nat, f: CountFrame, body: Scalar)
    requires s.mounted && i < |s.readyStates|
    ensures CountUpdateFor(f, Num(s.userId)) ==> Step(s, Message(i, f)).realTimeCount == f.unreadCount
    ensures Step(s, CountFetched(true, body)).realTimeCount == body
    ensures !BadgeShown(Step(s, CountFetched(false, body)).realTimeCount)
  {
  }

  /** The first `close` of a socket always schedules a reconnect. `error`
      closes its socket and then schedules one exactly when the latest
      socket is not open: always when the failing socket is the latest, and
      never for an older socket while the latest is open. */
  lemma ReconnectScheduling(s: Sockets, i: nat)
    requires i < |s.readyStates|
    ensures i !in s.closeDelivered ==> Step(s, Closed(i)).timers == s.timers + [true]
    ensures i in s.closeDelivered ==> Step(s, Closed(i)) == s
    ensures s.readyStates[i] != ClosedState ==>
      Step(s, Errored(i)).readyStates == s.readyStates[i := ClosedState]
    ensures Step(s, Errored(i)).timers == s.timers + [true] <==>
      s.readyStates[i] != ClosedState
      && (i == |s.readyStates| - 1 || s.readyStates[|s.readyStates| - 1] != OpenState)
    ensures (s.readyStates[i] != ClosedState && i != |s.readyStates| - 1
      && s.readyStates[|s.readyStates| - 1] == OpenState) ==> Step(s, Errored(i)).timers == s.timers
  {
  }

  /** An open socket that fails and then closes leaves two reconnects
      pending: `readyState` is already CLOSED when `onerror` tests it. */
  lemma OpenSocketFailsTwice()
    ensures Run(Initial, [Mounted(Num(7)), Opened(0), Errored(0), Closed(0)]).timers == [true, true]
  {
    var s1 := Step(Initial, Mounted(Num(7)));
    assert s1.readyStates == [Connecting] && s1.closeDelivered == {};
    var s2 := Step(s1, Opened(0));
    assert s2.readyStates == [OpenState];
    var s3 := Step(s2, Errored(0));
    assert s3.timers == [true] && s3.closeDelivered == {};
    var s4 := Step(s3, Closed(0));
    assert s4.timers == [true, true];
    RunCons(s3, Closed(0), []);
    RunCons(s2, Errored(0), [Closed(0)]);
    RunCons(s1, Opened(0), [Errored(0), Closed(0)]);
    RunCons(Initial, Mounted(Num(7)), [Opened(0), Errored(0), Closed(0)]);
  }

  /** An error on a socket that is still connecting, then its close, leave
      two reconnects pending; teardown cancels only the second. */
  lemma TwoReconnectsOneCancelled()
    ensures var s := Run(Initial, [Mounted(Num(7)), Errored(0), Closed(0)]);
      s.timers == [true, true] && Step(s, Unmounted).timers == [true, false]
  {
    var s1 := Step(Initial, Mounted(Num(7)));
    assert s1.readyStates == [Connecting] && s1.closeDelivered == {} && s1.timers == [];
    var s2 := Step(s1, Errored(0));
    assert s2.timers == [true] && s2.closeDelivered == {};
    var s3 := Step(s2, Closed(0));
    assert s3.timers == [true, true] && s3.reconnectTimer == Some(1) && s3.mounted;
    RunCons(s2, Closed(0), []);
    RunCons(s1, Errored(0), [Closed(0)]);
    RunCons(Initial, Mounted(Num(7)), [Errored(0), Closed(0)]);
  }

  /** Running a list of events runs its first event, then the rest. */
  lemma RunCons(s: Sockets, e: Event, rest: seq<Event>)
    ensures Run(s, [e] + rest) == Run(Step(s, e), rest)
  {
    assert ([e] + rest)[1..] == rest;
  }

  /** The stored id "7" opens one socket when the sidebar mounts. */
  lemma MountWithStoredText()
    ensures Step(Initial, Mounted(Str("7"))).readyStates == [Connecting]
    ensures Step(Initial, Mounted(Str("7"))).mounted
  {
    DigitsReadAsNumber("7");
    assert EffectUserId(Str("7")) == 7;
  }

  /** Mounting with "7", opening and tearing down leave one closing socket,
      no timer and an unmounted component. */
  lemma TeardownAfterOpen()
    ensures var s := Step(Step(Step(Initial, Mounted(Str("7"))), Opened(0)), Unmounted);
      s.readyStates == [Closing] && !s.mounted && s.timers == [] && s.closeDelivered == {}
  {
    MountWithStoredText();
    var s1 := Step(Initial, Mounted(Str("7")));
    assert s1.readyStates == [Connecting] && s1.timers == [] && s1.mounted;
    var s2 := Step(s1, Opened(0));
    assert s2.readyStates == [OpenState] && s2.timers == [] && s2.mounted;
    assert s2.reconnectTimer == None;
  }

  /** After such a teardown, the close schedules a reconnect and its timer
      opens a second socket. */
  lemma CloseThenTimer(s: Sockets)
    requires s.readyStates == [Closing] && !s.mounted && s.timers == [] && s.closeDelivered == {}
    ensures var r := Run(s, [Closed(0), TimerFired(0)]);
      !r.mounted && |r.readyStates| == 2
  {
    var s4 := Step(s, Closed(0));
    assert s4.timers == [true] && !s4.mounted && |s4.readyStates| == 1;
    var s5 := Step(s4, TimerFired(0));
    assert |s5.readyStates| == 2 && !s5.mounted;
    RunCons(s4, TimerFired(0), []);
    RunCons(s, Closed(0), [TimerFired(0)]);
  }

  /** Teardown leaves `onclose` attached: the close that follows it
      schedules a reconnect that opens a second socket after unmount. */
  lemma ReconnectsAfterUnmount()
    ensures var s := Run(Initial, [Mounted(Str("7")), Opened(0), Unmounted, Closed(0), TimerFired(0)]);
      !s.mounted && |s.readyStates| == 2
  {
    var s1 := Step(Initial, Mounted(Str("7")));
    var s2 := Step(s1, Opened(0));
    var s3 := Step(s2, Unmounted);
    TeardownAfterOpen();
    CloseThenTimer(s3);
    RunCons(s2, Unmounted, [Closed(0), TimerFired(0)]);
    RunCons(s1, Opened(0), [Unmounted, Closed(0), TimerFired(0)]);
    RunCons(Initial, Mounted(Str("7")), [Opened(0), Unmounted, Closed(0), TimerFired(0)]);
  }

  // ---------------------------------------------------------------------
  // Corrected teardown

  /** `clearTimeout(reconnectTimer); reconnectTimer = setTimeout(connect, 3000)` */
  function ScheduleFixed(s: Sockets): (r: Sockets)
    ensures r.mounted == s.mounted && r.readyStates == s.readyStates
  {
    var ts := ClearTimer(s.timers, s.reconnectTimer);
    s.(timers := ts + [true], reconnectTimer := Some(|ts|))
  }

  /** One event with the teardown that detaches the handlers, and with the
      previous timer cleared before a new one is scheduled. */
  function StepFixed(s: Sockets, ev: Event): Sockets {
    var rs := s.readyStates;
    match ev
    case Errored(i) =>
      if i < |rs| && rs[i] != ClosedState then
        var s1 := s.(readyStates := rs[i := ClosedState]);
        if s.mounted && s1.readyStates[|rs| - 1] != OpenState then ScheduleFixed(s1) else s1
      else s
    case Closed(i) =>
      if i < |rs| && i !in s.closeDelivered then
        var s1 := Delivered(s, i);
        if s.mounted then ScheduleFixed(s1) else s1
      else s
    case _ => Step(s, ev)
  }

  function RunFixed(s: Sockets, evs: seq<Event>): Sockets
    decreases |evs|
  {
    if evs == [] then s else RunFixed(StepFixed(s, evs[0]), evs[1..])
  }

  /** At most the remembered timer is pending, and none once unmounted. */
  predicate FixedInv(s: Sockets) {
    (forall t :: 0 <= t < |s.timers| && s.timers[t] ==> s.reconnectTimer == Some(t))
    && (!s.mounted ==> forall t :: 0 <= t < |s.timers| ==> !s.timers[t])
  }

  lemma StepFixedKeepsInv(s: Sockets, ev: Event)
    requires FixedInv(s)
    ensures FixedInv(StepFixed(s, ev))
  {
  }

  /** Once unmounted, no event creates a socket. */
  lemma StepFixedUnmounted(s: Sockets, ev: Event)
    requires FixedInv(s) && !s.mounted
    ensures !StepFixed(s, ev).mounted
    ensures |StepFixed(s, ev).readyStates| == |s.readyStates|
  {
  }

  lemma {:induction false} RunFixedKeepsInv(s: Sockets, evs: seq<Event>)
    requires FixedInv(s)
    ensures FixedInv(RunFixed(s, evs))
    decreases |evs|
  {
    if evs != [] {
      StepFixedKeepsInv(s, evs[0]);
      RunFixedKeepsInv(StepFixed(s, evs[0]), evs[1..]);
    }
  }

  lemma {:induction false} RunFixedAppend(s: Sockets, a: seq<Event>, b: seq<Event>)
    ensures RunFixed(s, a + b) == RunFixed(RunFixed(s, a), b)
    decreases |a|
  {
    if a != [] {
      assert (a + b)[0] == a[0];
      assert (a + b)[1..] == a[1..] + b;
      RunFixedAppend(StepFixed(s, a[0]), a[1..], b);
    } else {
      assert a + b == b;
    }
  }

  lemma {:induction false} RunFixedUnmounted(s: Sockets, evs: seq<Event>)
    requires FixedInv(s) && !s.mounted
    ensures |RunFixed(s, evs).readyStates| == |s.readyStates|
    decreases |evs|
  {
    if evs != [] {
      StepFixedKeepsInv(s, evs[0]);
      StepFixedUnmounted(s, evs[0]);
      RunFixedUnmounted(StepFixed(s, evs[0]), evs[1..]);
    }
  }

  /** With the corrected teardown, whatever happened before the unmount and
      whatever the browser delivers after it, no further socket is opened. */
  lemma NoSocketAfterUnmount(before: seq<Event>, after: seq<Event>)
    ensures var u := RunFixed(Initial, before + [Unmounted]);
      !u.mounted && |RunFixed(Initial, before + [Unmounted] + after).readyStates| == |u.readyStates|
  {
    RunFixedKeepsInv(Initial, before);
    var b := RunFixed(Initial, before);
    RunFixedAppend(Initial, before, [Unmounted]);
    assert RunFixed(b, [Unmounted]) == StepFixed(b, Unmounted) by {
      assert [Unmounted][1..] == [];
    }
    var u := StepFixed(b, Unmounted);
    StepFixedKeepsInv(b, Unmounted);
    RunFixedAppend(Initial, before + [Unmounted], after);
    RunFixedUnmounted(u, after);
  }

  /** The same two events that left a reconnect pending as written leave
      none after the corrected teardown. */
  lemma FixedCancelsAll()
    ensures var s := RunFixed(Initial, [Mounted(Num(7)), Errored(0), Closed(0)]);
      s.timers == [false, true] && StepFixed(s, Unmounted).timers == [false, false]
  {
    var s1 := StepFixed(Initial, Mounted(Num(7)));
    var s2 := StepFixed(s1, Errored(0));
    var s3 := StepFixed(s2, Closed(0));
    assert s3.timers == [false, true];
    assert RunFixed(Initial, [Mounted(Num(7)), Errored(0), Closed(0)]) == s3 by {
      assert [Mounted(Num(7)), Errored(0), Closed(0)][1..] == [Errored(0), Closed(0)];
      assert [Errored(0), Closed(0)][1..] == [Closed(0)];
    }
  }

  /** The component: the effect's closure state and `realTimeCount`. */
  class SidebarSocket {
    var userId: int
    var realTimeCount: Scalar
    var readyStates: seq<int>
    var closeDelivered: set<nat>
    var timers: seq<bool>
    var reconnectTimer: Option<nat>
    var mounted: bool

    function State(): Sockets
      reads this
    {
      Sockets(userId, realTimeCount, readyStates, closeDelivered, timers, reconnectTimer, mounted)
    }

    constructor()
      ensures State() == Initial
    {
      userId, realTimeCount, readyStates, closeDelivered, timers, reconnectTimer, mounted :=
        0, Num(0), [], {}, [], None, true;
    }

    method Connect()
      modifies this
      ensures State() == old(State()).(readyStates := old(readyStates) + [Connecting])
    {
      readyStates := readyStates + [Connecting];
    }

    method ScheduleReconnect()
      modifies this
      ensures State() == ScheduleFixed(old(State()))
    {
      if reconnectTimer.Some? && reconnectTimer.value < |timers| {
        timers := timers[reconnectTimer.value := false];
      }
      reconnectTimer := Some(|timers|);
      timers := timers + [true];
    }

    /** The effect on mount. */
    method Mount(stored: Scalar)
      modifies this
      ensures State() == StepFixed(old(State()), Mounted(stored))
    {
      if !mounted {
        return;
      }
      userId := EffectUserId(stored);
      if userId != 0 {
        Connect();
      }
    }

    method OnOpen(i: nat)
      modifies this
      ensures State() == StepFixed(old(State()), Opened(i))
    {
      if i < |readyStates| && readyStates[i] == Connecting {
        readyStates := readyStates[i := OpenState];
      }
    }

    method OnMessage(i: nat, f: CountFrame)
      modifies this
      ensures State() == StepFixed(old(State()), Message(i, f))
    {
      if i < |readyStates| && mounted && CountUpdateFor(f, Num(userId)) {
        realTimeCount := f.unreadCount;
      }
    }

    method OnError(i: nat)
      modifies this
      ensures State() == StepFixed(old(State()), Errored(i))
    {
      if i < |readyStates| && readyStates[i] != ClosedState {
        readyStates := readyStates[i := ClosedState];
        if mounted && readyStates[|readyStates| - 1] != OpenState {
          ScheduleReconnect();
        }
      }
    }

    method OnClose(i: nat)
      modifies this
      ensures State() == StepFixed(old(State()), Closed(i))
    {
      if i < |readyStates| && i !in closeDelivered {
        readyStates := readyStates[i := ClosedState];
        closeDelivered := closeDelivered + {i};
        if mounted {
          ScheduleReconnect();
        }
      }
    }

    method OnTimer(t: nat)
      modifies this
      ensures State() == StepFixed(old(State()), TimerFired(t))
    {
      if t < |timers| && timers[t] {
        timers := timers[t := false];
        Connect();
      }
    }

    /** The effect's cleanup, with the handlers detached. */
    method Unmount()
      modifies this
      ensures State() == StepFixed(old(State()), Unmounted)
    {
      if !mounted {
        return;
      }
      readyStates := CloseLatest(readyStates);
      timers := ClearTimer(timers, reconnectTimer);
      mounted := false;
    }

    /** `onSuccess` of the unread-count query and the effect on `unreadCount`. */
    method OnCountFetched(ok: bool, body: Scalar)
      modifies this
      ensures State() == StepFixed(old(State()), CountFetched(ok, body))
    {
      if mounted {
        realTimeCount := if ok then body else Num(0);
      }
    }
  }
}
