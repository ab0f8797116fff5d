// The header's notification bell: relative times, the unread badge, the type icons and
// what a click on a notification does to the notification list.

module Header {
  import opened Common
  import opened Notifications

  const MinuteMs: int := 60_000
  const HourMs: int := 3_600_000
  const DayMs: int := 86_400_000

  /** `formatTime`: whole days, else whole hours, else whole minutes since the timestamp,
      floored; a timestamp less than a minute old (or in the future) is "Just now". */
  function FormatTime(now: int, timestamp: int): string {
    var diff := now - timestamp;
    // Dafny's division by a positive constant floors, as `Math.floor` does.
    var minutes, hours, days := diff / MinuteMs, diff / HourMs, diff / DayMs;
    if days > 0 then NatToString(days) + "d ago"
    else if hours > 0 then NatToString(hours) + "h ago"
    else if minutes > 0 then NatToString(minutes) + "m ago"
    else "Just now"
  }

  /** The label names the largest unit with a non-zero count, and that count is the
      number of whole units elapsed: so an hour label is below 24 and a minute label
      below 60. */
  lemma FormatTimeSpec(now: int, timestamp: int)
    ensures var diff, r := now - timestamp, FormatTime(now, timestamp);
            && (diff >= DayMs ==>
                  exists n: nat :: r == NatToString(n) + "d ago" && n * DayMs <= diff < (n + 1) * DayMs)
            && (HourMs <= diff < DayMs ==>
                  exists n: nat :: r == NatToString(n) + "h ago" && 1 <= n < 24 && n * HourMs <= diff < (n + 1) * HourMs)
            && (MinuteMs <= diff < HourMs ==>
                  exists n: nat :: r == NatToString(n) + "m ago" && 1 <= n < 60 && n * MinuteMs <= diff < (n + 1) * MinuteMs)
            && (diff < MinuteMs <==> r == "Just now")
  {
    var diff := now - timestamp;
    var r := FormatTime(now, timestamp);
    if diff >= DayMs {
      var n: nat := diff / DayMs;
      assert r == NatToString(n) + "d ago";
      assert r[|r| - 1] == 'o';
    } else if diff >= HourMs {
      var n: nat := diff / HourMs;
      assert diff / DayMs == 0;
      assert r == NatToString(n) + "h ago";
      assert r[|r| - 1] == 'o';
    } else if diff >= MinuteMs {
      var n: nat := diff / MinuteMs;
      assert diff / DayMs == 0 && diff / HourMs == 0;
      assert r == NatToString(n) + "m ago";
      assert r[|r| - 1] == 'o';
    } else {
      assert diff / DayMs <= 0 && diff / HourMs <= 0 && diff / MinuteMs <= 0;
    }
  }

  /** The unread badge: hidden at zero, "9+" above nine, else the count. */
  function BadgeLabel(unreadCount: int): (r: Option<string>)
    ensures r.None? <==> unreadCount <= 0
    ensures r.Some? ==> (r.value == "9+" <==> unreadCount > 9)
    ensures 0 < unreadCount <= 9 ==> r == Some(NatToString(unreadCount)) && ParseInt(r.value) == Some(unreadCount)
  {
    if unreadCount <= 0 then None
    else if unreadCount > 9 then Some("9+")
    else
      ParseIntOfNatToString(unreadCount);
      assert |NatToString(unreadCount)| == 1;
      Some(NatToString(unreadCount))
  }

  const Bell: string := "\U{1F514}"

  /** `getNotificationIcon`: a glyph per known type, a bell for any other. */
  function Icon(kind: string): (r: string)
    ensures kind !in {"device", "report", "system", "subscription"} ==> r == Bell
  {
    match kind
    case "device" => "\U{1F527}"
    case "report" => "\U{1F4CA}"
    case "system" => "\U{26A0}\U{FE0F}"
    case "subscription" => "\U{1F4B0}"
    case _ => Bell
  }

  /** The four known types get four distinct glyphs, none of them the bell. */
  lemma IconsDistinct()
    ensures Distinct([Icon("device"), Icon("report"), Icon("system"), Icon("subscription"), Bell])
  {
  }

  /** What a click does: mark read (only when unread), close the dropdown, and navigate
      by type. */
  datatype Click = Click(markRead: Option<string>, closeDropdown: bool, navigate: Option<string>)

  function OnClick(n: Notification): (c: Click)
    ensures c.closeDropdown
    ensures c.markRead.Some? <==> !n.read
    ensures c.markRead.Some? ==> c.markRead.value == n.id
    ensures c.navigate.Some? <==> n.kind in {"device", "report", "subscription"}
  {
    Click(if n.read then None else Some(n.id), true,
          match n.kind
          case "device" => Some("/dashboard/devices")
          case "report" => Some("/dashboard/reports")
          case "subscription" => Some("/dashboard/account")
          case _ => None)
  }

  /** The list and counter after a click. */
  function AfterClick(items: seq<Notification>, count: int, n: Notification): (seq<Notification>, int) {
    match OnClick(n).markRead
    case Some(id) => (MarkedRead(items, id), Max(0, count - 1))
    case None => (items, count)
  }

  /** Clicking a listed notification keeps a consistent counter consistent: the click
      marks only unread items, which are then found by their unique id. */
  lemma ClickKeepsConsistent(items: seq<Notification>, count: int, n: Notification)
    requires UniqueIds(items) && Consistent(items, count) && n in items
    ensures Consistent(AfterClick(items, count, n).0, AfterClick(items, count, n).1)
  {
    if !n.read {
      var k :| 0 <= k < |items| && items[k] == n;
      var f := FindById(items, n.id);
      assert f.Some?;
      var i :| 0 <= i < |items| && items[i] == f.value && f.value.id == n.id
               && forall j :: 0 <= j < i ==> items[j].id != n.id;
      forall j | 0 <= j < |items| && j != k ensures items[j].id != n.id {
        if j < k { assert items[j].id != items[k].id; } else { assert items[k].id != items[j].id; }
      }
      assert i == k;
      assert FoundUnread(items, n.id);
      MarkAsReadKeepsConsistent(items, count, n.id);
    }
  }

  /** The toolbar: "Mark all read" only with unread items, "Clear all" only with items. */
  datatype Toolbar = Toolbar(markAll: bool, clearAll: bool)

  function ToolbarFor(items: seq<Notification>, unreadCount: int): (t: Toolbar)
    ensures t.markAll <==> unreadCount > 0
    ensures t.clearAll <==> |items| > 0
  {
    Toolbar(unreadCount > 0, |items| > 0)
  }

  /** With a consistent counter, "Mark all read" shows exactly when some item is unread. */
  lemma ToolbarMarkAllSpec(items: seq<Notification>, count: int)
    requires Consistent(items, count)
    ensures ToolbarFor(items, count).markAll <==> exists i :: 0 <= i < |items| && !items[i].read
  {
    if exists i :: 0 <= i < |items| && !items[i].read {
      var i :| 0 <= i < |items| && !items[i].read;
      FilterMembership(items, IsUnread, items[i]);
    } else {
      FilterNone(items, IsUnread);
    }
  }
}
