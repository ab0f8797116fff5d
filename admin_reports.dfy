// The administrators' device-report page: its device search, the query it sends for the
// device list, and the user picker.

module AdminReports {
  import opened Common

  /** The fields of a listed device the page searches. */
  datatype Device = Device(id: string, name: string, uniqueId: string, userId: Option<string>,
                           userEmail: Option<string>)

  datatype UserOption = UserOption(id: string, email: string, name: Option<string>)

  /** The lower-cased name, unique id or owner's address contains the lower-cased query;
      a device without an address is matched on the first two only. */
  predicate Matches(d: Device, query: string) {
    var q := ToLower(query);
    Includes(ToLower(d.name), q) || Includes(ToLower(d.uniqueId), q)
    || (Truthy(d.userEmail) && Includes(ToLower(d.userEmail.value), q))
  }

  function MatchesQuery(query: string): Device -> bool {
    (d: Device) => Matches(d, query)
  }

  /** `filteredDevices`. */
  function Search(devices: seq<Device>, query: string): seq<Device> {
    Filter(devices, MatchesQuery(query))
  }

  /** The search keeps exactly the matching devices, in their order, and the empty query
      keeps them all. */
  lemma SearchSpec(devices: seq<Device>, query: string, d: Device)
    ensures d in Search(devices, query) <==> d in devices && Matches(d, query)
    ensures IsSubsequence(Search(devices, query), devices)
    ensures Search(devices, "") == devices
  {
    FilterMembership(devices, MatchesQuery(query), d);
    FilterIsSubsequence(devices, MatchesQuery(query));
    forall i | 0 <= i < |devices| ensures Matches(devices[i], "") {
      assert ToLower("") == "";
      IncludesEmpty(ToLower(devices[i].name));
    }
    FilterAll(devices, MatchesQuery(""));
  }

  /** Without an owner's address only the name and unique id can match. */
  lemma NoEmailMatch(d: Device, query: string)
    requires d.userEmail.None?
    ensures Matches(d, query) <==> Includes(ToLower(d.name), ToLower(query)) || Includes(ToLower(d.uniqueId), ToLower(query))
  {
  }

  /** Searching by the owner's address finds the device in any letter case. */
  lemma EmailMatch(d: Device, query: string)
    requires Truthy(d.userEmail) && ToLower(query) == ToLower(d.userEmail.value)
    ensures Matches(d, query)
  {
    var e := ToLower(d.userEmail.value);
    assert e[..|e|] == e;
  }

  /** The device-list query: no status for "ALL", no user for "all". */
  datatype DeviceQuery = DeviceQuery(status: Option<string>, userId: Option<string>)

  function DeviceParams(filter: string, selectedUserId: string): (q: DeviceQuery)
    ensures q.status.None? <==> filter == "ALL"
    ensures q.status.Some? ==> q.status.value == filter
    ensures q.userId.None? <==> selectedUserId == "all"
    ensures q.userId.Some? ==> q.userId.value == selectedUserId
  {
    DeviceQuery(if filter != "ALL" then Some(filter) else None,
                if selectedUserId != "all" then Some(selectedUserId) else None)
  }

  const AllUsers: UserOption := UserOption("all", "All Users", Some("All Users"))

  /** The picker: the "all" entry first, then the users as fetched. */
  function UserOptions(users: seq<UserOption>): (r: seq<UserOption>)
    ensures |r| == |users| + 1 && r[0] == AllUsers && r[1..] == users
  {
    [AllUsers] + users
  }

  /** Picking the first entry sends no user filter. */
  lemma FirstOptionAllUsers(users: seq<UserOption>, filter: string)
    ensures DeviceParams(filter, UserOptions(users)[0].id).userId.None?
  {
  }
}
