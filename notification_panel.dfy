/**
 * The notification panel: the list of notices, the count it reports to the
 * sidebar after a socket message, a delete or a mark-read, and the "mark
 * all" button. The list edits run once the request has resolved, whatever
 * its status; only a rejected request skips them.
 */
module NotificationPanel {
  import opened JsCore
  import opened Records

  /** The socket's `onmessage`: the count it passes to `onCountUpdate`, if
      it calls it. */
  function ForwardedCount(f: CountFrame, userId: Scalar, hasCallback: bool): (r: Option<Scalar>)
    ensures r.Some? <==> hasCallback && CountUpdateFor(f, userId)
    ensures r.Some? ==> r.value == f.unreadCount
  {
    if hasCallback && CountUpdateFor(f, userId) then Some(f.unreadCount) else None
  }

  predicate Unread(n: Notice) {
    !n.isRead
  }

  /** `items.filter(n => !n.isRead).length` */
  function UnreadCount(items: seq<Notice>): (c: nat)
    ensures c <= |items|
  {
    Count(items, Unread)
  }

  /** `prev.filter(n => n.noticeId !== id)`: every copy of a notice with
      another id stays, every copy of one with this id goes. */
  function Remaining(items: seq<Notice>, id: Scalar): (r: seq<Notice>)
    ensures |r| <= |items|
    ensures forall n :: n in r <==> n in items && !StrictEq(n.noticeId, id)
    ensures forall n :: multiset(r)[n] == if StrictEq(n.noticeId, id) then 0 else multiset(items)[n]
  {
    var keep := (n: Notice) => !StrictEq(n.noticeId, id);
    assert forall n :: multiset(Filter(items, keep))[n] == if keep(n) then multiset(items)[n] else 0 by {
      forall n {
        FilterMultiplicity(items, keep, n);
      }
    }
    Filter(items, keep)
  }

  /** The filter keeps the order of the list: it acts on each part
      separately. */
  lemma RemainingKeepsOrder(xs: seq<Notice>, ys: seq<Notice>, id: Scalar)
    ensures Remaining(xs + ys, id) == Remaining(xs, id) + Remaining(ys, id)
  {
    FilterAppend(xs, ys, (n: Notice) => !StrictEq(n.noticeId, id));
  }

  /** A single notice is kept or dropped on its own id. */
  lemma RemainingOfOne(n: Notice, id: Scalar)
    ensures Remaining([n], id) == if StrictEq(n.noticeId, id) then [] else [n]
  {
    assert [n][1..] == [];
  }

  /** `prev.find(n => n.noticeId === id)` */
  function FindNotice(items: seq<Notice>, id: Scalar): (r: Option<Notice>)
    ensures r.Some? ==> r.value in items && StrictEq(r.value.noticeId, id)
    ensures r.Some? ==> (exists i :: 0 <= i < |items| && items[i] == r.value &&
                                     (forall j :: 0 <= j < i ==> !StrictEq(items[j].noticeId, id)))
    ensures r.None? ==> forall n :: n in items ==> !StrictEq(n.noticeId, id)
  {
    if items == [] then None
    else if StrictEq(items[0].noticeId, id) then Some(items[0])
    else FindNotice(items[1..], id)
  }

  /** `prev.map(n => n.noticeId === id ? { ...n, isRead: true } : n)` */
  function MarkRead(items: seq<Notice>, id: Scalar): (r: seq<Notice>)
    ensures |r| == |items|
    ensures forall i :: 0 <= i < |items| && StrictEq(items[i].noticeId, id) ==> r[i] == items[i].(isRead := true)
    ensures forall i :: 0 <= i < |items| && !StrictEq(items[i].noticeId, id) ==> r[i] == items[i]
  {
    seq(|items|, i requires 0 <= i < |items| =>
      if StrictEq(items[i].noticeId, id) then items[i].(isRead := true) else items[i])
  }

  /** `prev.map(n => ({ ...n, isRead: true }))` */
  function MarkAll(items: seq<Notice>): (r: seq<Notice>)
    ensures |r| == |items|
    ensures forall i :: 0 <= i < |items| ==> r[i] == items[i].(isRead := true)
  {
    seq(|items|, i requires 0 <= i < |items| => items[i].(isRead := true))
  }

  /** `items.every(n => n.isRead)`: the "mark all" button is disabled. */
  predicate MarkAllDisabled(items: seq<Notice>) {
    forall n :: n in items ==> n.isRead
  }

  /** The count mark-read reports, from the list before the update:
      `items.filter(n => n.noticeId !== id && !n.isRead).length`. */
  function UnreadOthers(items: seq<Notice>, id: Scalar): nat {
    Count(items, (n: Notice) => !StrictEq(n.noticeId, id) && !n.isRead)
  }

  /** The button is disabled exactly when nothing is unread. */
  lemma DisabledIffNoneUnread(items: seq<Notice>)
    ensures MarkAllDisabled(items) <==> UnreadCount(items) == 0
  {
    var u := Filter(items, Unread);
    if UnreadCount(items) != 0 {
      assert u[0] in u;
    } else {
      assert u == [];
    }
  }

  /** The count reported after mark-read is the unread count of the list the
      update produces. */
  lemma {:induction false} MarkReadCount(items: seq<Notice>, id: Scalar)
    ensures UnreadOthers(items, id) == UnreadCount(MarkRead(items, id))
  {
    if items != [] {
      MarkReadCount(items[1..], id);
      assert MarkRead(items, id)[1..] == MarkRead(items[1..], id);
    }
  }

  /** Deleting drops the unread matches from the unread count and nothing
      else. */
  lemma {:induction false} DeleteCount(items: seq<Notice>, id: Scalar)
    ensures UnreadCount(Remaining(items, id))
      == UnreadCount(items) - Count(items, (n: Notice) => StrictEq(n.noticeId, id) && !n.isRead)
  {
    if items != [] {
      DeleteCount(items[1..], id);
      var r := Remaining(items, id);
      if StrictEq(items[0].noticeId, id) {
        assert r == Remaining(items[1..], id);
      } else {
        assert r == [items[0]] + Remaining(items[1..], id);
        FilterAppend([items[0]], Remaining(items[1..], id), Unread);
      }
    }
  }

  /** After "mark all" nothing is unread. */
  lemma MarkAllLeavesNoneUnread(items: seq<Notice>)
    ensures UnreadCount(MarkAll(items)) == 0
    ensures MarkAllDisabled(MarkAll(items))
  {
    var r := MarkAll(items);
    forall n | n in r
      ensures n.isRead
    {
      var i :| 0 <= i < |r| && r[i] == n;
    }
    DisabledIffNoneUnread(r);
  }

  /** A stale closure: the panel shows two unread notices, 1 and 2; notice
      2 is deleted, and then the mark-read of notice 1, clicked before the
      delete, resolves. The list then holds no unread notice, yet the count
      reported from the captured list is 1. */
  lemma StaleMarkReadCount(a: Notice, b: Notice)
    requires a.noticeId == Num(1) && b.noticeId == Num(2) && !a.isRead && !b.isRead
    ensures UnreadOthers([a, b], Num(1)) == 1
    ensures Remaining([a, b], Num(2)) == [a]
    ensures UnreadCount(MarkRead(Remaining([a, b], Num(2)), Num(1))) == 0
  {
    UnreadOthersOfTwo(a, b, Num(1));
    RemainingOfTwo(a, b, Num(2));
    OwnMarkLeavesNoneUnread(a);
  }

  lemma RemainingOfTwo(a: Notice, b: Notice, id: Scalar)
    requires !StrictEq(a.noticeId, id) && StrictEq(b.noticeId, id)
    ensures Remaining([a, b], id) == [a]
  {
    RemainingKeepsOrder([a], [b], id);
    RemainingOfOne(a, id);
    RemainingOfOne(b, id);
    assert [a] + [b] == [a, b];
  }

  lemma OwnMarkLeavesNoneUnread(a: Notice)
    requires !a.noticeId.NaN?
    ensures UnreadCount(MarkRead([a], a.noticeId)) == 0
  {
    MarkReadCount([a], a.noticeId);
    assert [a][1..] == [];
  }

  lemma UnreadOthersOfTwo(a: Notice, b: Notice, id: Scalar)
    ensures UnreadOthers([a, b], id)
      == (if !StrictEq(a.noticeId, id) && !a.isRead then 1 else 0)
       + (if !StrictEq(b.noticeId, id) && !b.isRead then 1 else 0)
  {
    var p := (n: Notice) => !StrictEq(n.noticeId, id) && !n.isRead;
    FilterAppend([a], [b], p);
    assert [a] + [b] == [a, b];
    assert [a][1..] == [] && [b][1..] == [];
  }

  /** The panel's `items` state. */
  class NoticeList {
    var items: seq<Notice>

    constructor()
      ensures items == []
    {
      items := [];
    }

    /** `handleDelete(id)`: `resolved` is false when the request rejected. */
    method HandleDelete(id: Scalar, resolved: bool, hasCallback: bool) returns (reported: Option<nat>)
      modifies this
      ensures !resolved ==> items == old(items) && reported.None?
      ensures resolved ==> items == Remaining(old(items), id)
      ensures reported.Some? <==>
        resolved && hasCallback && FindNotice(old(items), id).Some? && !FindNotice(old(items), id).value.isRead
      ensures reported.Some? ==> reported.value == UnreadCount(items)
    {
      reported := None;
      if !resolved {
        return;
      }
      var prev := items;
      var newItems := Remaining(prev, id);
      var deleted := FindNotice(prev, id);
      if deleted.Some? && !deleted.value.isRead && hasCallback {
        reported := Some(UnreadCount(newItems));
      }
      items := newItems;
    }

    /** `handleMarkRead(id)`: the list update works on the list current when
        the request resolves, but the reported count is computed from
        `clicked`, the `items` the click handler closed over when it was
        created. When nothing changed the list in between, the count is the
        unread count of the new list. */
    method HandleMarkRead(clicked: seq<Notice>, id: Scalar, resolved: bool, hasCallback: bool)
      returns (reported: Option<nat>)
      modifies this
      ensures !resolved ==> items == old(items) && reported.None?
      ensures resolved ==> items == MarkRead(old(items), id)
      ensures reported.Some? <==> resolved && hasCallback
      ensures reported.Some? ==> reported.value == UnreadOthers(clicked, id)
      ensures reported.Some? && clicked == old(items) ==> reported.value == UnreadCount(items)
    {
      reported := None;
      if !resolved {
        return;
      }
      var before := items;
      items := MarkRead(before, id);
      if hasCallback {
        MarkReadCount(before, id);
        reported := Some(UnreadOthers(clicked, id));
      }
    }

    /** `handleMarkedAll()`: nothing happens when nothing is unread; `resolved`
        is false when any of the requests rejected. */
    method HandleMarkedAll(resolved: bool) returns (requested: bool)
      modifies this
      ensures requested <==> UnreadCount(old(items)) != 0
      ensures requested && resolved ==> items == MarkAll(old(items)) && MarkAllDisabled(items)
      ensures !(requested && resolved) ==> items == old(items)
    {
      var unread := UnreadCount(items);
      if unread == 0 {
        return false;
      }
      requested := true;
      if resolved {
        MarkAllLeavesNoneUnread(items);
        items := MarkAll(items);
      }
    }
  }
}
