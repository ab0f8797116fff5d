// The device map's decisions: a device's online status, which devices get a marker,
// the initial view, what the view controller does, and the route markers.
// Coordinates are whole millionths of a degree.

module DeviceMap {
  import opened Common

  datatype Device = Device(id: string, name: string, uniqueId: string,
                           latitude: Option<int>, longitude: Option<int>,
                           speed: Option<int>, course: Option<int>,
                           lastUpdate: Option<string>, isActive: Option<bool>)

  datatype RoutePoint = RoutePoint(latitude: int, longitude: int, speed: int, timestamp: string)

  datatype DeviceStatus = DeviceStatus(online: bool, status: string)

  const OnlineWindowMs: int := 10 * 60_000

  /** `getDeviceStatus`: inactive (false or missing) first, then no data, then online
      while the last update is under ten minutes old. A date that does not parse is NaN
      minutes, which is not under ten. */
  function GetDeviceStatus(d: Device, now: int, parseDate: string -> Option<int>): DeviceStatus {
    if !(d.isActive == Some(true)) then DeviceStatus(false, "Inactive")
    else if !Truthy(d.lastUpdate) then DeviceStatus(false, "No Data")
    else
      var t := parseDate(d.lastUpdate.value);
      var online := t.Some? && now - t.value < OnlineWindowMs;
      DeviceStatus(online, if online then "Online" else "Offline")
  }

  /** The status is one of the four labels, `online` exactly when it reads "Online"; an
      inactive device is "Inactive" whatever its last update, an active one without an
      update is "No Data", and otherwise it is online exactly within ten minutes. */
  lemma DeviceStatusSpec(d: Device, now: int, parseDate: string -> Option<int>)
    ensures var s := GetDeviceStatus(d, now, parseDate);
            && (s.online <==> s.status == "Online")
            && s.status in {"Inactive", "No Data", "Online", "Offline"}
            && (d.isActive != Some(true) <==> s.status == "Inactive")
            && (d.isActive == Some(true) && !Truthy(d.lastUpdate) <==> s.status == "No Data")
            && (s.online <==> d.isActive == Some(true) && Truthy(d.lastUpdate)
                              && parseDate(d.lastUpdate.value).Some?
                              && now - parseDate(d.lastUpdate.value).value < OnlineWindowMs)
  {
  }

  predicate HasPosition(d: Device) {
    d.latitude.Some? && d.longitude.Some?
  }

  /** The controller's test: both coordinates truthy, so 0 counts as missing. */
  predicate HasTruthyPosition(d: Device) {
    d.latitude.Some? && d.latitude.value != 0 && d.longitude.Some? && d.longitude.value != 0
  }

  /** The devices that get a marker: both coordinates non-null. */
  function ValidDevices(ds: seq<Device>): seq<Device> {
    Filter(ds, HasPosition)
  }

  /** The marked devices keep their order and are exactly those with both coordinates. */
  lemma ValidDevicesSpec(ds: seq<Device>, d: Device)
    ensures IsSubsequence(ValidDevices(ds), ds)
    ensures d in ValidDevices(ds) <==> d in ds && HasPosition(d)
  {
    FilterIsSubsequence(ds, HasPosition);
    FilterMembership(ds, HasPosition, d);
  }

  datatype View = View(center: (int, int), zoom: int)

  const DefaultCenter: (int, int) := (9_032_000, 38_746_900)

  /** The initial view: the route's first point, else the first marked device, both at
      zoom 13, else the default centre at zoom 10. */
  function InitialView(route: seq<RoutePoint>, ds: seq<Device>): (v: View)
    ensures |route| > 0 ==> v == View((route[0].latitude, route[0].longitude), 13)
    ensures |route| == 0 && |ValidDevices(ds)| > 0 ==>
              v == View((ValidDevices(ds)[0].latitude.value, ValidDevices(ds)[0].longitude.value), 13)
    ensures |route| == 0 && |ValidDevices(ds)| == 0 ==> v == View(DefaultCenter, 10)
  {
    var valid := ValidDevices(ds);
    if |route| > 0 then View((route[0].latitude, route[0].longitude), 13)
    else if |valid| > 0 then View((valid[0].latitude.value, valid[0].longitude.value), 13)
    else View(DefaultCenter, 10)
  }

  /** With no marked device the map opens on the default centre exactly when there is no
      route; any marked device is a device that has both coordinates. */
  lemma InitialViewDefault(route: seq<RoutePoint>, ds: seq<Device>)
    ensures InitialView(route, ds) == View(DefaultCenter, 10) <==>
              |route| == 0 && forall i :: 0 <= i < |ds| ==> !HasPosition(ds[i])
  {
    if |route| == 0 {
      if exists i :: 0 <= i < |ds| && HasPosition(ds[i]) {
        var i :| 0 <= i < |ds| && HasPosition(ds[i]);
        FilterMembership(ds, HasPosition, ds[i]);
        var v := ValidDevices(ds)[0];
        assert v.latitude.Some?;
      } else {
        FilterNone(ds, HasPosition);
      }
    }
  }

  /** What the view controller does with the map. */
  datatype MapAction = FitRoute(points: seq<(int, int)>) | CenterOn(center: (int, int), zoom: int)
                     | FitDevices(points: seq<(int, int)>) | Stay

  function RouteCoordinates(route: seq<RoutePoint>): (r: seq<(int, int)>)
    ensures |r| == |route| && forall i :: 0 <= i < |r| ==> r[i] == (route[i].latitude, route[i].longitude)
  {
    seq(|route|, i requires 0 <= i < |route| => (route[i].latitude, route[i].longitude))
  }

  function DeviceCoordinates(ds: seq<Device>): (r: seq<(int, int)>)
    requires forall i :: 0 <= i < |ds| ==> HasTruthyPosition(ds[i])
    ensures |r| == |ds|
    ensures forall i :: 0 <= i < |r| ==> HasTruthyPosition(ds[i]) && r[i] == (ds[i].latitude.value, ds[i].longitude.value)
  {
    seq(|ds|, i requires 0 <= i < |ds| && HasTruthyPosition(ds[i]) => (ds[i].latitude.value, ds[i].longitude.value))
  }

  /** The controller's effect: a non-empty route first, then a selected device with
      truthy coordinates at zoom 15, then all devices with truthy coordinates. */
  function Controller(ds: seq<Device>, selected: Option<Device>, route: seq<RoutePoint>): MapAction {
    if |route| > 0 then FitRoute(RouteCoordinates(route))
    else if selected.Some? && HasTruthyPosition(selected.value) then
      CenterOn((selected.value.latitude.value, selected.value.longitude.value), 15)
    else if |ds| > 0 then
      var valid := Filter(ds, HasTruthyPosition);
      if |valid| > 0 then FitDevices(DeviceCoordinates(valid)) else Stay
    else Stay
  }

  /** A route wins over a selection; a selected device at (0, y) is not centred on; the
      fitted devices never include one at latitude or longitude 0. */
  lemma ControllerPriority(ds: seq<Device>, selected: Option<Device>, route: seq<RoutePoint>)
    ensures |route| > 0 ==> Controller(ds, selected, route).FitRoute?
    ensures Controller(ds, selected, route).CenterOn? <==>
              |route| == 0 && selected.Some? && HasTruthyPosition(selected.value)
    ensures Controller(ds, selected, route).FitDevices? ==>
              forall i :: 0 <= i < |Controller(ds, selected, route).points| ==>
                Controller(ds, selected, route).points[i].0 != 0 && Controller(ds, selected, route).points[i].1 != 0
  {
  }

  /** The route markers: a start marker whenever the route is shown, an end marker only
      for a route of more than one point. */
  datatype RouteMarkers = RouteMarkers(start: Option<(int, int)>, end: Option<(int, int)>)

  function Markers(showRoute: bool, route: seq<RoutePoint>): (m: RouteMarkers)
    ensures m.start.Some? <==> showRoute && |route| > 0
    ensures m.end.Some? <==> showRoute && |route| > 1
    ensures m.start.Some? ==> m.start.value == (route[0].latitude, route[0].longitude)
    ensures m.end.Some? ==> m.end.value == (route[|route| - 1].latitude, route[|route| - 1].longitude)
  {
    if !(showRoute && |route| > 0) then RouteMarkers(None, None)
    else RouteMarkers(Some((route[0].latitude, route[0].longitude)),
                      if |route| > 1 then Some((route[|route| - 1].latitude, route[|route| - 1].longitude)) else None)
  }
}
