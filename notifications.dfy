// The browser-side notification list: a capped, newest-first list and an unread
// counter kept beside it, which the operations update separately.

module Notifications {
  import opened Common

  /** A notification; `kind` is the type tag (device, report, system, subscription). */
  datatype Notification = Notification(id: string, kind: string, title: string, message: string,
                                       timestamp: int, read: bool)

  /** The list keeps the newest 50. */
  const Cap: nat := 50

  predicate IsUnread(n: Notification) { !n.read }

  /** The number of unread items in a list. */
  function UnreadCount(items: seq<Notification>): nat {
    Count(items, IsUnread)
  }

  /** The counter agrees with the list. */
  predicate Consistent(items: seq<Notification>, count: int) {
    count == UnreadCount(items)
  }

  /** No two items share an id. */
  predicate UniqueIds(items: seq<Notification>) {
    forall i, j :: 0 <= i < j < |items| ==> items[i].id != items[j].id
  }

  // ---------------------------------------------------------------- list operations

  /** `[n, ...prev].slice(0, 50)`. */
  function Prepended(items: seq<Notification>, n: Notification): (r: seq<Notification>)
    ensures |r| == if |items| < Cap then |items| + 1 else Cap
    ensures r[0] == n && forall i :: 0 < i < |r| ==> r[i] == items[i - 1]
  {
    ([n] + items)[..if |items| < Cap then |items| + 1 else Cap]
  }

  /** `prev.map(...)` setting `read` on the items with the given id. */
  function MarkedRead(items: seq<Notification>, id: string): (r: seq<Notification>)
    ensures |r| == |items|
    ensures forall i :: 0 <= i < |r| ==>
              r[i] == items[i].(read := r[i].read) && (r[i].read <==> items[i].read || items[i].id == id)
  {
    seq(|items|, i requires 0 <= i < |items| => if items[i].id == id then items[i].(read := true) else items[i])
  }

  /** `prev.map(n => ({...n, read: true}))`. */
  function AllRead(items: seq<Notification>): (r: seq<Notification>)
    ensures |r| == |items| && forall i :: 0 <= i < |r| ==> r[i] == items[i].(read := true)
  {
    seq(|items|, i requires 0 <= i < |items| => items[i].(read := true))
  }

  function OtherId(id: string): Notification -> bool {
    (n: Notification) => n.id != id
  }

  /** `prev.filter(n => n.id !== id)`. */
  function Without(items: seq<Notification>, id: string): seq<Notification> {
    Filter(items, OtherId(id))
  }

  /** `find(n => n.id === id)`: the first item with that id. */
  function FindById(items: seq<Notification>, id: string): (r: Option<Notification>)
    ensures r.None? <==> forall i :: 0 <= i < |items| ==> items[i].id != id
    ensures r.Some? ==> exists i :: 0 <= i < |items| && items[i] == r.value && r.value.id == id
                                    && forall j :: 0 <= j < i ==> items[j].id != id
    decreases |items|
  {
    if items == [] then None
    else if items[0].id == id then Some(items[0])
    else
      var r := FindById(items[1..], id);
      if r.Some? then
        ghost var i :| 0 <= i < |items[1..]| && items[1..][i] == r.value && r.value.id == id
                       && forall j :: 0 <= j < i ==> items[1..][j].id != id;
        assert items[i + 1] == r.value;
        r
      else r
  }

  /** The delete decrements the counter when the item found first is unread. */
  predicate FoundUnread(items: seq<Notification>, id: string) {
    FindById(items, id).Some? && !FindById(items, id).value.read
  }

  // ---------------------------------------------------------------- counting lemmas

  lemma UnreadCountCons(x: Notification, rest: seq<Notification>)
    ensures UnreadCount([x] + rest) == (if x.read then 0 else 1) + UnreadCount(rest)
  {
    assert ([x] + rest)[1..] == rest;
  }

  /** Adding an item counts it when unread and loses the unread items pushed past the
      cap; the counter, which always adds one, drifts when an unread item drops off or
      an already-read item is added. */
  lemma {:induction false} AddCount(items: seq<Notification>, n: Notification)
    ensures UnreadCount(Prepended(items, n)) + (if |items| < Cap then 0 else UnreadCount(items[Cap - 1..]))
            == UnreadCount(items) + (if n.read then 0 else 1)
  {
    var r := Prepended(items, n);
    if |items| < Cap {
      assert r == [n] + items;
      UnreadCountCons(n, items);
    } else {
      assert r == [n] + items[..Cap - 1];
      UnreadCountCons(n, items[..Cap - 1]);
      assert items == items[..Cap - 1] + items[Cap - 1..];
      FilterConcat(items[..Cap - 1], items[Cap - 1..], IsUnread);
    }
  }

  /** From a consistent state, adding an unread item stays consistent exactly when the
      list is below the cap or the items that drop off are all read. */
  lemma AddKeepsConsistent(items: seq<Notification>, count: int, n: Notification)
    requires Consistent(items, count) && !n.read
    ensures Consistent(Prepended(items, n), count + 1) <==>
              |items| < Cap || UnreadCount(items[Cap - 1..]) == 0
  {
    AddCount(items, n);
  }

  lemma {:induction false} MarkedReadNoMatch(items: seq<Notification>, id: string)
    requires forall i :: 0 <= i < |items| ==> items[i].id != id
    ensures MarkedRead(items, id) == items
  {
  }

  lemma MarkedReadCons(x: Notification, rest: seq<Notification>, id: string)
    ensures MarkedRead([x] + rest, id) == [if x.id == id then x.(read := true) else x] + MarkedRead(rest, id)
  {
  }

  /** With unique ids, marking an id read lowers the unread count exactly when the item
      with that id was unread. */
  lemma {:induction false} MarkedReadCount(items: seq<Notification>, id: string)
    requires UniqueIds(items)
    ensures UnreadCount(MarkedRead(items, id)) == UnreadCount(items) - (if FoundUnread(items, id) then 1 else 0)
    decreases |items|
  {
    if items != [] {
      var x, rest := items[0], items[1..];
      assert items == [x] + rest;
      var y := if x.id == id then x.(read := true) else x;
      MarkedReadCons(x, rest, id);
      UnreadCountCons(y, MarkedRead(rest, id));
      UnreadCountCons(x, rest);
      if x.id == id {
        forall i | 0 <= i < |rest| ensures rest[i].id != id {
          assert items[0].id != items[i + 1].id;
        }
        MarkedReadNoMatch(rest, id);
      } else {
        assert FindById(items, id) == FindById(rest, id);
        assert UniqueIds(rest) by {
          forall i, j | 0 <= i < j < |rest| ensures rest[i].id != rest[j].id {
            assert items[i + 1].id != items[j + 1].id;
          }
        }
        MarkedReadCount(rest, id);
      }
    }
  }

  /** `markAsRead` keeps a consistent counter exactly when the id names an unread item
      (or the counter is already 0 and nothing is unread); marking a read or absent id
      still decrements. */
  lemma MarkAsReadKeepsConsistent(items: seq<Notification>, count: int, id: string)
    requires UniqueIds(items) && Consistent(items, count)
    ensures Consistent(MarkedRead(items, id), Max(0, count - 1)) <==> FoundUnread(items, id) || count == 0
  {
    MarkedReadCount(items, id);
  }

  /** With unique ids, deleting an id lowers the unread count exactly when the item with
      that id was unread. */
  lemma {:induction false} WithoutCount(items: seq<Notification>, id: string)
    requires UniqueIds(items)
    ensures UnreadCount(Without(items, id)) == UnreadCount(items) - (if FoundUnread(items, id) then 1 else 0)
    decreases |items|
  {
    if items != [] {
      var x, rest := items[0], items[1..];
      assert items == [x] + rest;
      UnreadCountCons(x, rest);
      if x.id == id {
        forall i | 0 <= i < |rest| ensures OtherId(id)(rest[i]) {
          assert items[0].id != items[i + 1].id;
        }
        FilterAll(rest, OtherId(id));
      } else {
        UnreadCountCons(x, Without(rest, id));
        WithoutCount(rest, id);
      }
    }
  }

  /** With unique ids `deleteNotification` keeps a consistent counter. */
  lemma DeleteKeepsConsistent(items: seq<Notification>, count: int, id: string)
    requires UniqueIds(items) && Consistent(items, count)
    ensures Consistent(Without(items, id), if FoundUnread(items, id) then Max(0, count - 1) else count)
  {
    WithoutCount(items, id);
  }

  /** Deleting keeps the other items in order and drops every item with the id. */
  lemma WithoutSpec(items: seq<Notification>, id: string, n: Notification)
    ensures IsSubsequence(Without(items, id), items)
    ensures n in Without(items, id) <==> n in items && n.id != id
  {
    FilterIsSubsequence(items, OtherId(id));
    FilterMembership(items, OtherId(id), n);
  }

  /** Marking everything read leaves nothing unread. */
  lemma AllReadCount(items: seq<Notification>)
    ensures UnreadCount(AllRead(items)) == 0
  {
    FilterNone(AllRead(items), IsUnread);
  }

  /** Marking read twice is marking once. */
  lemma MarkedReadIdempotent(items: seq<Notification>, id: string)
    ensures MarkedRead(MarkedRead(items, id), id) == MarkedRead(items, id)
  {
  }

  // ---------------------------------------------------------------- the provider's state

  /** The provider's two state variables. */
  class NotificationCenter {
    var items: seq<Notification>
    var unreadCount: int

    /** The counter is never negative. */
    predicate Valid()
      reads this
    {
      unreadCount >= 0
    }

    constructor()
      ensures Valid() && items == [] && unreadCount == 0 && Consistent(items, unreadCount)
    {
      items, unreadCount := [], 0;
    }

    /** The mount-time restore: a saved list (when present and parsable) replaces the
        list and the counter is recounted from it; otherwise nothing changes. */
    method Load(saved: Option<seq<Notification>>)
      requires Valid()
      modifies this
      ensures Valid()
      ensures saved.Some? ==> items == saved.value && Consistent(items, unreadCount)
      ensures saved.None? ==> items == old(items) && unreadCount == old(unreadCount)
    {
      if saved.Some? {
        items, unreadCount := saved.value, UnreadCount(saved.value);
      }
    }

    /** `addNotification`, with the generated id already in `n`. */
    method Add(n: Notification)
      requires Valid()
      modifies this
      ensures Valid()
      ensures items == Prepended(old(items), n) && unreadCount == old(unreadCount) + 1
    {
      items, unreadCount := Prepended(items, n), unreadCount + 1;
    }

    /** `markAsRead`. */
    method MarkAsRead(id: string)
      requires Valid()
      modifies this
      ensures Valid()
      ensures items == MarkedRead(old(items), id) && unreadCount == Max(0, old(unreadCount) - 1)
    {
      items, unreadCount := MarkedRead(items, id), Max(0, unreadCount - 1);
    }

    /** `markAllAsRead`. */
    method MarkAllAsRead()
      requires Valid()
      modifies this
      ensures Valid() && Consistent(items, unreadCount)
      ensures items == AllRead(old(items)) && unreadCount == 0
    {
      AllReadCount(items);
      items, unreadCount := AllRead(items), 0;
    }

    /** `deleteNotification`. */
    method Delete(id: string)
      requires Valid()
      modifies this
      ensures Valid()
      ensures items == Without(old(items), id)
      ensures unreadCount == if FoundUnread(old(items), id) then Max(0, old(unreadCount) - 1) else old(unreadCount)
    {
      var found := FindById(items, id);
      items := Without(items, id);
      if found.Some? && !found.value.read {
        unreadCount := Max(0, unreadCount - 1);
      }
    }

    /** `clearAllNotifications`. */
    method Clear()
      requires Valid()
      modifies this
      ensures Valid() && Consistent(items, unreadCount)
      ensures items == [] && unreadCount == 0
    {
      items, unreadCount := [], 0;
    }
  }
}
