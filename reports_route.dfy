// The route-report endpoint: its parameter checks, how it reads the device list, and
// the single device number it hands to the tracking server. `Number(...)` is a parameter
// (`None` is NaN).

module ReportsRoute {
  import opened Common

  /** A query parameter: one value, or the array a repeated key gives. */
  datatype QueryValue = Text(s: string) | List(items: seq<string>)

  /** `!value` is false for every array, even an empty one. */
  predicate Present(v: Option<QueryValue>) {
    v.Some? && (v.value.Text? ==> v.value.s != "")
  }

  /** `String(value)`: an array prints as its items joined with commas. */
  function AsText(v: QueryValue): string {
    match v
    case Text(s) => s
    case List(items) => Join(items, ",")
  }

  function TrimAll(parts: seq<string>): (r: seq<string>)
    ensures |r| == |parts| && forall i :: 0 <= i < |parts| ==> r[i] == Trim(parts[i])
  {
    seq(|parts|, i requires 0 <= i < |parts| => Trim(parts[i]))
  }

  function NonEmpty(): string -> bool {
    (s: string) => s != ""
  }

  /** `deviceIds`: an array as is; a text split on commas, trimmed, empty parts dropped. */
  function DeviceIds(v: QueryValue): (ids: seq<string>)
    ensures v.List? ==> ids == v.items
    ensures v.Text? ==> ids == Filter(TrimAll(Split(v.s, ',')), NonEmpty())
  {
    match v
    case List(items) => items
    case Text(s) => Filter(TrimAll(Split(s, ',')), NonEmpty())
  }

  /** The report request sent on. */
  datatype Request = Request(deviceId: Option<int>, from: string, to: string)

  datatype Reply = BadRequest(error: string) | Report(request: Request)

  /** GET /route, as written: the request carries `Number` of the raw parameter. */
  function RouteAsWritten(deviceId: Option<QueryValue>, from: Option<QueryValue>, to: Option<QueryValue>,
                          toNumber: string -> Option<int>): Reply
  {
    if !Present(deviceId) || !Present(from) || !Present(to) then BadRequest("Missing parameters")
    else if |DeviceIds(deviceId.value)| == 0 then BadRequest("Invalid deviceId(s)")
    else Report(Request(toNumber(AsText(deviceId.value)), AsText(from.value), AsText(to.value)))
  }

  /** The guards: 400 "Missing parameters" exactly when one of the three is missing or an
      empty text, then 400 "Invalid deviceId(s)" exactly when the list comes out empty; a
      text made only of commas and spaces is such a list. */
  lemma RouteGuards(deviceId: Option<QueryValue>, from: Option<QueryValue>, to: Option<QueryValue>,
                    toNumber: string -> Option<int>)
    ensures var r := RouteAsWritten(deviceId, from, to, toNumber);
            && (r == BadRequest("Missing parameters") <==> !Present(deviceId) || !Present(from) || !Present(to))
            && (r == BadRequest("Invalid deviceId(s)") <==>
                  Present(deviceId) && Present(from) && Present(to) && |DeviceIds(deviceId.value)| == 0)
            && (r.Report? ==> r.request == Request(toNumber(AsText(deviceId.value)), AsText(from.value), AsText(to.value)))
    ensures RouteAsWritten(Some(List([])), from, to, toNumber).BadRequest?
  {
  }

  /** Every id read from a text is non-empty, and the ids keep the text's order. */
  lemma DeviceIdsSpec(s: string)
    ensures forall i :: 0 <= i < |DeviceIds(Text(s))| ==> DeviceIds(Text(s))[i] != ""
    ensures IsSubsequence(DeviceIds(Text(s)), TrimAll(Split(s, ',')))
  {
    FilterIsSubsequence(TrimAll(Split(s, ',')), NonEmpty());
  }

  /** A text without a comma gives at most one id, its trimmed self. */
  lemma SingleId(s: string)
    requires ',' !in s
    ensures Trim(s) != "" ==> DeviceIds(Text(s)) == [Trim(s)]
    ensures Trim(s) == "" ==> DeviceIds(Text(s)) == []
  {
    SplitNoSeparator(s, ',');
    assert TrimAll([s]) == [Trim(s)];
    assert [Trim(s)][1..] == [];
  }

  /** A text that lists two or more ids holds a comma, and `Number` of any text with a
      comma is NaN: the tracking server is asked for device NaN. */
  lemma ListedIdsGiveNaN(s: string, from: Option<QueryValue>, to: Option<QueryValue>,
                         toNumber: string -> Option<int>)
    requires forall t :: ',' in t ==> toNumber(t).None?
    requires Present(from) && Present(to) && |DeviceIds(Text(s))| >= 2
    ensures RouteAsWritten(Some(Text(s)), from, to, toNumber) == Report(Request(None, AsText(from.value), AsText(to.value)))
  {
    if ',' !in s {
      SingleId(s);
      assert false;
    }
  }

  /** The text "1,2" lists the two ids "1" and "2". */
  lemma TwoIds()
    ensures DeviceIds(Text("1,2")) == ["1", "2"]
  {
    SplitNoSeparator("2", ',');
    SplitAtFirst("1", ',', "2");
    assert "1" + [','] + "2" == "1,2";
    TrimDigit('1');
    TrimDigit('2');
    assert TrimAll(["1", "2"]) == ["1", "2"];
    assert ["1", "2"][1..] == ["2"] && ["2"][1..] == [];
  }

  lemma TrimDigit(c: char)
    requires IsDigit(c)
    ensures Trim([c]) == [c]
  {
    assert TrimStart([c]) == [c];
    assert TrimEnd([c]) == [c];
  }

  /** The concrete case "1,2": two ids, and device NaN requested. */
  lemma TwoIdsExample(toNumber: string -> Option<int>)
    requires forall t :: ',' in t ==> toNumber(t).None?
    ensures DeviceIds(Text("1,2")) == ["1", "2"]
    ensures RouteAsWritten(Some(Text("1,2")), Some(Text("a")), Some(Text("b")), toNumber)
              == Report(Request(None, "a", "b"))
  {
    TwoIds();
    assert ',' in "1,2" by { assert "1,2"[1] == ','; }
  }

  // ---------------------------------------------------------------- corrected

  datatype ListRequest = ListRequest(deviceIds: seq<Option<int>>, from: string, to: string)

  datatype ListReply = ListBadRequest(error: string) | ListReport(request: ListRequest)

  function NumberAll(ids: seq<string>, toNumber: string -> Option<int>): (r: seq<Option<int>>)
    ensures |r| == |ids| && forall i :: 0 <= i < |ids| ==> r[i] == toNumber(ids[i])
  {
    seq(|ids|, i requires 0 <= i < |ids| => toNumber(ids[i]))
  }

  /** GET /route with the parsed list sent on: the same guards, and one number per id. */
  function Route(deviceId: Option<QueryValue>, from: Option<QueryValue>, to: Option<QueryValue>,
                 toNumber: string -> Option<int>): (r: ListReply)
    ensures r.ListBadRequest? <==> RouteAsWritten(deviceId, from, to, toNumber).BadRequest?
    ensures r.ListBadRequest? ==> r.error == RouteAsWritten(deviceId, from, to, toNumber).error
    ensures r.ListReport? ==> |r.request.deviceIds| == |DeviceIds(deviceId.value)| >= 1
                              && forall i :: 0 <= i < |r.request.deviceIds| ==>
                                   r.request.deviceIds[i] == toNumber(DeviceIds(deviceId.value)[i])
  {
    if !Present(deviceId) || !Present(from) || !Present(to) then ListBadRequest("Missing parameters")
    else if |DeviceIds(deviceId.value)| == 0 then ListBadRequest("Invalid deviceId(s)")
    else ListReport(ListRequest(NumberAll(DeviceIds(deviceId.value), toNumber), AsText(from.value), AsText(to.value)))
  }

  /** For a single id without commas, the corrected route asks for the same device as the
      code as written, since `Number` ignores surrounding white space. */
  lemma RouteAgreesOnOneId(s: string, from: Option<QueryValue>, to: Option<QueryValue>,
                           toNumber: string -> Option<int>)
    requires forall t :: toNumber(t) == toNumber(Trim(t))
    requires ',' !in s && Trim(s) != "" && Present(from) && Present(to)
    ensures Route(Some(Text(s)), from, to, toNumber).ListReport?
    ensures Route(Some(Text(s)), from, to, toNumber).request.deviceIds
            == [RouteAsWritten(Some(Text(s)), from, to, toNumber).request.deviceId]
  {
    SingleId(s);
  }
}
