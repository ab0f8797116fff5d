// The supported-devices page: the fixed table of tracker models and its search box.

module SupportedDevices {
  import opened Common

  datatype DeviceModel = DeviceModel(name: string, protocol: string, port: string, help: string)

  /** The table the page ships with. */
  const Models: seq<DeviceModel> := [
    DeviceModel("TK103", "gps103", "5001", "Set server IP and port: SERVER_IP 5001"),
    DeviceModel("Teltonika FMB965", "teltonika", "5027", "Set APN, then server IP and port: SERVER_IP 5027"),
    DeviceModel("GL200", "gl200", "5004", "Send SMS command to set IP and port: SERVER_IP 5004"),
    DeviceModel("Freematics ONE+", "freematics", "5170", "Plug in OBD-II, configure via app with IP and port: SERVER_IP 5170")
  ]

  /** The name and protocol are matched without regard to case, the port as typed. */
  predicate Matches(d: DeviceModel, query: string) {
    Includes(ToLower(d.name), ToLower(query)) || Includes(ToLower(d.protocol), ToLower(query))
    || Includes(d.port, query)
  }

  function MatchesQuery(query: string): DeviceModel -> bool {
    (d: DeviceModel) => Matches(d, query)
  }

  /** `filteredDevices`. */
  function Search(models: seq<DeviceModel>, query: string): seq<DeviceModel> {
    Filter(models, MatchesQuery(query))
  }

  /** The table body: one row per match, or the single "No devices found" row. */
  datatype Body = Rows(rows: seq<DeviceModel>) | NoDevicesFound

  function TableBody(models: seq<DeviceModel>, query: string): (b: Body)
    ensures b == NoDevicesFound <==> |Search(models, query)| == 0
    ensures b.Rows? ==> b.rows == Search(models, query)
  {
    var found := Search(models, query);
    if |found| > 0 then Rows(found) else NoDevicesFound
  }

  /** A model is listed exactly when it is in the table and matches; the listing keeps the
      table's order; the empty query lists the whole table. */
  lemma SearchSpec(models: seq<DeviceModel>, query: string, d: DeviceModel)
    ensures d in Search(models, query) <==> d in models && Matches(d, query)
    ensures IsSubsequence(Search(models, query), models)
    ensures Search(models, "") == models
  {
    FilterMembership(models, MatchesQuery(query), d);
    FilterIsSubsequence(models, MatchesQuery(query));
    forall i | 0 <= i < |models| ensures Matches(models[i], "") {
      assert ToLower("") == "";
      IncludesEmpty(ToLower(models[i].name));
    }
    FilterAll(models, MatchesQuery(""));
  }

  /** A query differing only in letter case finds the same name and protocol matches. */
  lemma CaseOnlyMatters(d: DeviceModel, q1: string, q2: string)
    requires ToLower(q1) == ToLower(q2) && !Includes(d.port, q1) && !Includes(d.port, q2)
    ensures Matches(d, q1) <==> Matches(d, q2)
  {
  }

  /** A text never contains a longer needle. */
  lemma {:induction false} IncludesLonger(hay: string, needle: string)
    requires |needle| > |hay|
    ensures !Includes(hay, needle)
    decreases |hay|
  {
    if |hay| > 0 {
      IncludesLonger(hay[1..], needle);
    }
  }

  /** A query longer than every name, protocol and port in the table matches nothing, so
      the page shows "No devices found". */
  lemma LongQueryNoMatch(models: seq<DeviceModel>, query: string)
    requires forall i :: 0 <= i < |models| ==>
               |models[i].name| < |query| && |models[i].protocol| < |query| && |models[i].port| < |query|
    ensures TableBody(models, query) == NoDevicesFound
  {
    forall i | 0 <= i < |models| ensures !MatchesQuery(query)(models[i]) {
      IncludesLonger(ToLower(models[i].name), ToLower(query));
      IncludesLonger(ToLower(models[i].protocol), ToLower(query));
      IncludesLonger(models[i].port, query);
    }
    FilterNone(models, MatchesQuery(query));
  }

  /** Searching the shipped table for a model it does not list, "Queclink GV300N",
      shows "No devices found". */
  lemma NoMatchExample()
    ensures TableBody(Models, "Queclink GV300N tracker") == NoDevicesFound
  {
    LongQueryNoMatch(Models, "Queclink GV300N tracker");
  }
}
