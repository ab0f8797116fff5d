/** The Telebirr signed-request client: environment-dependent endpoints, the canonical
    flat map that is signed, the pre-order request, the two-stage decoding of the
    gateway's reply, the signed checkout URL and the verification of a callback.
    RSA signing and verification, the random source, the clock, `JSON.parse` and the HTTP
    transport are parameters. */
module Telebirr {
  import opened Common
  import opened Uri

  // ---------------------------------------------------------------- JSON values

  /** A JSON value: request payloads, parsed gateway replies and callback bodies.
      `JNull` stands for both null and undefined. Numbers are integers in this model. */
  datatype Json =
    | JNull
    | JBool(b: bool)
    | JNum(n: int)
    | JStr(s: string)
    | JArr(items: seq<Json>)
    | JObj(fields: seq<(string, Json)>)

  /** String(v), which is also v.toString() for a value that is not null. */
  function Render(v: Json): string
    decreases v
  {
    match v
    case JNull => "null"
    case JBool(b) => if b then "true" else "false"
    case JNum(n) => IntToString(n)
    case JStr(s) => s
    case JArr(items) => Join(seq(|items|, i requires 0 <= i < |items| =>
                          if items[i].JNull? then "" else Render(items[i])), ",")
    case JObj(_) => "[object Object]"
  }

  /** JavaScript truthiness of a JSON value. */
  predicate JsTruthy(v: Json) {
    match v
    case JNull => false
    case JBool(b) => b
    case JNum(n) => n != 0
    case JStr(s) => s != ""
    case _ => true
  }

  /** typeof v === "object" && v !== null: objects and arrays. */
  predicate IsObject(v: Json) { v.JObj? || v.JArr? }

  function Keys<V>(d: seq<(string, V)>): (ks: seq<string>)
    ensures |ks| == |d| && forall i :: 0 <= i < |d| ==> ks[i] == d[i].0
  {
    seq(|d|, i requires 0 <= i < |d| => d[i].0)
  }

  /** The value stored under a key: the first entry with that key. */
  function Get<V>(d: seq<(string, V)>, k: string): (r: Option<V>)
    ensures r.Some? <==> k in Keys(d)
    decreases |d|
  {
    if |d| == 0 then None else if d[0].0 == k then Some(d[0].1) else Get(d[1..], k)
  }

  /** v[k] for a value that is not null: undefined (JNull) unless v is an object holding k. */
  function Member(v: Json, k: string): Json {
    if v.JObj? then Coalesce(Get(v.fields, k), JNull) else JNull
  }

  /** Object.entries of an object or array. */
  function OwnEntries(v: Json): (es: seq<(string, Json)>)
    requires IsObject(v)
  {
    if v.JObj? then v.fields
    else seq(|v.items|, i requires 0 <= i < |v.items| => (NatToString(i), v.items[i]))
  }

  // ---------------------------------------------------------------- the flat map

  /** A JavaScript object whose values are strings, keys in insertion order. */
  type Dict = seq<(string, string)>

  /** obj[k] = v: an existing key keeps its position and takes the new value; a new key
      is appended. */
  function Put(d: Dict, k: string, v: string): Dict
    decreases |d|
  {
    if |d| == 0 then [(k, v)]
    else if d[0].0 == k then [(k, v)] + d[1..]
    else [d[0]] + Put(d[1..], k, v)
  }

  lemma KeysCons<V>(e: (string, V), d: seq<(string, V)>)
    ensures Keys([e] + d) == [e.0] + Keys(d)
  {
  }

  lemma {:induction false} PutKeys(d: Dict, k: string, v: string, x: string)
    ensures x in Keys(Put(d, k, v)) <==> x == k || x in Keys(d)
    decreases |d|
  {
    if |d| == 0 {
      assert Keys(Put(d, k, v)) == [k];
    } else {
      assert d == [d[0]] + d[1..];
      KeysCons(d[0], d[1..]);
      if d[0].0 != k {
        PutKeys(d[1..], k, v, x);
        KeysCons(d[0], Put(d[1..], k, v));
      } else {
        KeysCons((k, v), d[1..]);
      }
    }
  }

  lemma {:induction false} PutGet(d: Dict, k: string, v: string, x: string)
    ensures Get(Put(d, k, v), x) == if x == k then Some(v) else Get(d, x)
    decreases |d|
  {
    if |d| > 0 && d[0].0 != k {
      PutGet(d[1..], k, v, x);
      assert Put(d, k, v)[1..] == Put(d[1..], k, v);
    } else if |d| > 0 {
      assert Put(d, k, v)[1..] == d[1..];
    }
  }

  /** The fields left out of the signed map. */
  const ExcludedFields: seq<string> := ["sign", "sign_type", "header", "refund_info", "openType", "raw_request"]

  predicate Excluded(k: string) { k in ExcludedFields }

  function HoistStep(flat: Dict, e: (string, Json)): Dict {
    if !Excluded(e.0) && !e.1.JNull? then Put(flat, e.0, Render(e.1)) else flat
  }

  /** Copies the allowed, non-null entries of `biz_content` into the flat map, in order. */
  function Hoist(flat: Dict, es: seq<(string, Json)>): Dict
    decreases |es|
  {
    if |es| == 0 then flat else HoistStep(Hoist(flat, es[..|es| - 1]), es[|es| - 1])
  }

  function FlattenStep(flat: Dict, e: (string, Json)): Dict {
    if Excluded(e.0) then flat
    else if e.0 == "biz_content" && IsObject(e.1) then Hoist(flat, OwnEntries(e.1))
    else if !e.1.JNull? then Put(flat, e.0, Render(e.1))
    else flat
  }

  /** The flat map that is signed: the request's entries in order, excluded keys and null
      values dropped, an object `biz_content` replaced by its own entries. */
  function Flatten(data: seq<(string, Json)>): Dict
    decreases |data|
  {
    if |data| == 0 then [] else FlattenStep(Flatten(data[..|data| - 1]), data[|data| - 1])
  }

  /** `flattenForSign`, filling the flat map entry by entry. */
  method FlattenForSign(data: seq<(string, Json)>) returns (flat: Dict)
    ensures flat == Flatten(data)
  {
    flat := [];
    var i := 0;
    while i < |data|
      invariant 0 <= i <= |data|
      invariant flat == Flatten(data[..i])
    {
      var key := data[i].0;
      var value := data[i].1;
      assert data[..i + 1][..i] == data[..i];
      if Excluded(key) {
      } else if key == "biz_content" && IsObject(value) {
        var entries := OwnEntries(value);
        ghost var before := flat;
        var j := 0;
        while j < |entries|
          invariant 0 <= j <= |entries|
          invariant flat == Hoist(before, entries[..j])
        {
          var bizKey := entries[j].0;
          var bizValue := entries[j].1;
          assert entries[..j + 1][..j] == entries[..j];
          if !Excluded(bizKey) && !bizValue.JNull? {
            flat := Put(flat, bizKey, Render(bizValue));
          }
          j := j + 1;
        }
        assert entries[..j] == entries;
      } else if !value.JNull? {
        flat := Put(flat, key, Render(value));
      }
      i := i + 1;
    }
    assert data[..i] == data;
  }

  /** An entry of `biz_content` that reaches the flat map under key k. */
  predicate HoistContributes(es: seq<(string, Json)>, k: string) {
    exists j :: 0 <= j < |es| && es[j].0 == k && !Excluded(k) && !es[j].1.JNull?
  }

  /** A top-level entry that puts key k into the flat map, itself or through `biz_content`. */
  predicate EntryContributes(e: (string, Json), k: string) {
    (e.0 == k && !Excluded(k) && !e.1.JNull? && !(k == "biz_content" && IsObject(e.1)))
    || (e.0 == "biz_content" && IsObject(e.1) && HoistContributes(OwnEntries(e.1), k))
  }

  predicate Contributes(data: seq<(string, Json)>, k: string) {
    exists i :: 0 <= i < |data| && EntryContributes(data[i], k)
  }

  lemma {:induction false} HoistKeys(flat: Dict, es: seq<(string, Json)>, k: string)
    ensures k in Keys(Hoist(flat, es)) <==> k in Keys(flat) || HoistContributes(es, k)
    decreases |es|
  {
    if |es| > 0 {
      var p := es[..|es| - 1];
      var e := es[|es| - 1];
      HoistKeys(flat, p, k);
      if !Excluded(e.0) && !e.1.JNull? { PutKeys(Hoist(flat, p), e.0, Render(e.1), k); }
      if HoistContributes(es, k) {
        var j :| 0 <= j < |es| && es[j].0 == k && !Excluded(k) && !es[j].1.JNull?;
        if j < |es| - 1 { assert p[j] == es[j]; }
      }
      if HoistContributes(p, k) {
        var j :| 0 <= j < |p| && p[j].0 == k && !Excluded(k) && !p[j].1.JNull?;
        assert es[j] == p[j];
      }
    }
  }

  /** A key is in the flat map exactly when some entry contributes it: a top-level entry
      that is not excluded, not null and not an object `biz_content`, or an allowed,
      non-null entry of an object `biz_content`. */
  lemma {:induction false} FlattenKeys(data: seq<(string, Json)>, k: string)
    ensures k in Keys(Flatten(data)) <==> Contributes(data, k)
    decreases |data|
  {
    if |data| > 0 {
      var p := data[..|data| - 1];
      var e := data[|data| - 1];
      FlattenKeys(p, k);
      var before := Flatten(p);
      if Excluded(e.0) {
      } else if e.0 == "biz_content" && IsObject(e.1) {
        HoistKeys(before, OwnEntries(e.1), k);
      } else if !e.1.JNull? {
        PutKeys(before, e.0, Render(e.1), k);
      }
      assert k in Keys(Flatten(data)) <==> k in Keys(before) || EntryContributes(e, k);
      if Contributes(data, k) {
        var i :| 0 <= i < |data| && EntryContributes(data[i], k);
        if i < |data| - 1 { assert p[i] == data[i]; }
      }
      if Contributes(p, k) {
        var i :| 0 <= i < |p| && EntryContributes(p[i], k);
        assert data[i] == p[i];
      }
    }
  }

  /** None of the excluded fields is ever signed, whether it appears at the top level or
      inside `biz_content`. */
  lemma FlattenExcludesFields(data: seq<(string, Json)>, k: string)
    requires Excluded(k)
    ensures k !in Keys(Flatten(data))
  {
    FlattenKeys(data, k);
  }

  /** Every allowed, non-null entry of an object `biz_content` is hoisted to the top level. */
  lemma FlattenHoistsBizContent(data: seq<(string, Json)>, i: nat, j: nat)
    requires i < |data| && data[i].0 == "biz_content" && IsObject(data[i].1)
    requires j < |OwnEntries(data[i].1)|
    requires !Excluded(OwnEntries(data[i].1)[j].0) && !OwnEntries(data[i].1)[j].1.JNull?
    ensures OwnEntries(data[i].1)[j].0 in Keys(Flatten(data))
  {
    FlattenKeys(data, OwnEntries(data[i].1)[j].0);
    assert EntryContributes(data[i], OwnEntries(data[i].1)[j].0);
  }

  /** When every `biz_content` entry is an object without a key of that name, the key
      `biz_content` itself is not in the flat map. */
  lemma FlattenDropsBizContent(data: seq<(string, Json)>)
    requires forall i :: 0 <= i < |data| && data[i].0 == "biz_content" ==>
               IsObject(data[i].1) && "biz_content" !in Keys(OwnEntries(data[i].1))
    ensures "biz_content" !in Keys(Flatten(data))
  {
    FlattenKeys(data, "biz_content");
    forall i | 0 <= i < |data| ensures !EntryContributes(data[i], "biz_content") {
      if data[i].0 == "biz_content" {
        var es := OwnEntries(data[i].1);
        forall j | 0 <= j < |es| ensures es[j].0 != "biz_content" {
          assert es[j].0 == Keys(es)[j];
        }
      }
    }
  }

  /** The text a contributing entry stores under k. */
  predicate EntrySource(e: (string, Json), k: string, v: string) {
    (e.0 == k && !Excluded(k) && !e.1.JNull? && !(k == "biz_content" && IsObject(e.1)) && v == Render(e.1))
    || (e.0 == "biz_content" && IsObject(e.1) && HoistSource(OwnEntries(e.1), k, v))
  }

  predicate HoistSource(es: seq<(string, Json)>, k: string, v: string) {
    exists j :: 0 <= j < |es| && es[j].0 == k && !Excluded(k) && !es[j].1.JNull? && v == Render(es[j].1)
  }

  lemma {:induction false} HoistValues(flat: Dict, es: seq<(string, Json)>, k: string)
    requires Get(Hoist(flat, es), k).Some?
    ensures Get(flat, k) == Get(Hoist(flat, es), k) || HoistSource(es, k, Get(Hoist(flat, es), k).value)
    decreases |es|
  {
    if |es| > 0 {
      var p := es[..|es| - 1];
      var e := es[|es| - 1];
      var v := Get(Hoist(flat, es), k).value;
      if !Excluded(e.0) && !e.1.JNull? {
        PutGet(Hoist(flat, p), e.0, Render(e.1), k);
        if k == e.0 {
          assert HoistSource(es, k, v) by { assert es[|es| - 1] == e; }
          return;
        }
      }
      assert Get(Hoist(flat, p), k) == Get(Hoist(flat, es), k);
      HoistValues(flat, p, k);
      if HoistSource(p, k, v) {
        var j :| 0 <= j < |p| && p[j].0 == k && !Excluded(k) && !p[j].1.JNull? && v == Render(p[j].1);
        assert es[j] == p[j];
      }
    }
  }

  /** Every value of the flat map is the text of a non-null field that contributes it;
      in particular no null or undefined value is ever signed. */
  lemma {:induction false} FlattenValues(data: seq<(string, Json)>, k: string)
    requires Get(Flatten(data), k).Some?
    ensures exists i :: 0 <= i < |data| && EntrySource(data[i], k, Get(Flatten(data), k).value)
    decreases |data|
  {
    var p := data[..|data| - 1];
    var e := data[|data| - 1];
    var before := Flatten(p);
    var v := Get(Flatten(data), k).value;
    if !Excluded(e.0) && e.0 == "biz_content" && IsObject(e.1) {
      HoistValues(before, OwnEntries(e.1), k);
      if HoistSource(OwnEntries(e.1), k, v) {
        assert EntrySource(data[|data| - 1], k, v);
        return;
      }
    } else if !Excluded(e.0) && !e.1.JNull? {
      PutGet(before, e.0, Render(e.1), k);
      if k == e.0 {
        assert EntrySource(data[|data| - 1], k, v);
        return;
      }
    }
    assert Get(before, k) == Get(Flatten(data), k);
    FlattenValues(p, k);
    var i :| 0 <= i < |p| && EntrySource(p[i], k, v);
    assert data[i] == p[i];
  }

  /** Adding `sign` and `sign_type` to a request does not change its flat map: the
      signature and its type are never part of the signed text. */
  lemma FlattenIgnoresSignature(data: seq<(string, Json)>, signature: string)
    ensures Flatten(FinalRequest(data, signature)) == Flatten(data)
  {
    var r := FinalRequest(data, signature);
    assert r[..|r| - 1] == data + [("sign", JStr(signature))];
    assert (data + [("sign", JStr(signature))])[..|data|] == data;
  }

  // ---------------------------------------------------------------- signing strings

  function Lookup(d: Dict, k: string): string {
    match Get(d, k)
    case Some(v) => v
    case None => ""
  }

  /** `key=value` for each key in turn. */
  function Pairs(d: Dict, keys: seq<string>): (r: seq<string>)
    ensures |r| == |keys| && forall i :: 0 <= i < |keys| ==> r[i] == keys[i] + "=" + Lookup(d, keys[i])
  {
    seq(|keys|, i requires 0 <= i < |keys| => keys[i] + "=" + Lookup(d, keys[i]))
  }

  /** The canonical text of a map: its keys in ascending order, each written `key=value`,
      joined by '&'. */
  function CanonicalText(d: Dict): string {
    Join(Pairs(d, Sort(Keys(d))), "&")
  }

  /** `key=decodeURIComponent(value)` for each key in turn; None when a value does not
      decode. */
  function DecodedPairs(flat: Dict, keys: seq<string>): (r: Option<seq<string>>)
    ensures r.None? <==> exists i :: 0 <= i < |keys| && PercentDecode(Lookup(flat, keys[i])).None?
    ensures r.Some? ==> |r.value| == |keys| && forall i :: 0 <= i < |keys| ==>
              PercentDecode(Lookup(flat, keys[i])).Some?
              && r.value[i] == keys[i] + "=" + PercentDecode(Lookup(flat, keys[i])).value
    decreases |keys|
  {
    if |keys| == 0 then Some([])
    else match PercentDecode(Lookup(flat, keys[0]))
      case None => None
      case Some(v) =>
        match DecodedPairs(flat, keys[1..])
        case None =>
          assert exists i :: 0 <= i < |keys[1..]| && PercentDecode(Lookup(flat, keys[1..][i])).None?;
          var i :| 0 <= i < |keys[1..]| && PercentDecode(Lookup(flat, keys[1..][i])).None?;
          assert keys[i + 1] == keys[1..][i];
          None
        case Some(rest) => Some([keys[0] + "=" + v] + rest)
  }

  /** The pre-order signing string: the flat keys in ascending order, each written
      `key=decodeURIComponent(value)`, joined by '&'; None is the URIError a malformed
      value throws. */
  function SignString(flat: Dict): Option<string> {
    match DecodedPairs(flat, Sort(Keys(flat)))
    case None => None
    case Some(ps) => Some(Join(ps, "&"))
  }

  /** The signing string lists every key of the flat map exactly once, in ascending order. */
  lemma SignStringShape(flat: Dict)
    requires SignString(flat).Some?
    ensures Sorted(Sort(Keys(flat))) && multiset(Sort(Keys(flat))) == multiset(Keys(flat))
    ensures exists ps :: SignString(flat) == Some(Join(ps, "&")) && |ps| == |flat|
              && forall i :: 0 <= i < |ps| ==>
                   ps[i] == Sort(Keys(flat))[i] + "=" + PercentDecode(Lookup(flat, Sort(Keys(flat))[i])).value
  {
    SortCorrect(Keys(flat));
    var ks := Sort(Keys(flat));
    assert |ks| == |Keys(flat)| by {
      assert |multiset(ks)| == |multiset(Keys(flat))|;
    }
    var ps := DecodedPairs(flat, ks).value;
    assert SignString(flat) == Some(Join(ps, "&"));
  }

  /** Values without '%' are signed as they are: the signing string is then the canonical
      text of the flat map. */
  lemma SignStringPlain(flat: Dict)
    requires forall i :: 0 <= i < |flat| ==> '%' !in flat[i].1
    ensures SignString(flat) == Some(CanonicalText(flat))
  {
    var ks := Sort(Keys(flat));
    forall k | k in ks ensures PercentDecode(Lookup(flat, k)) == Some(Lookup(flat, k)) {
      LookupFrom(flat, k);
      PercentDecodePlain(Lookup(flat, k));
    }
    var r := DecodedPairs(flat, ks);
    forall i | 0 <= i < |ks| ensures PercentDecode(Lookup(flat, ks[i])).Some? {
      assert ks[i] in ks;
    }
    assert r.value == Pairs(flat, ks) by {
      forall i | 0 <= i < |ks| ensures r.value[i] == Pairs(flat, ks)[i] {
        assert ks[i] in ks;
      }
    }
  }

  /** A looked-up value is one of the map's values, or "" for an absent key. */
  lemma {:induction false} LookupFrom(d: Dict, k: string)
    ensures Lookup(d, k) == "" || exists i :: 0 <= i < |d| && d[i].1 == Lookup(d, k)
    decreases |d|
  {
    if |d| > 0 && d[0].0 != k {
      LookupFrom(d[1..], k);
      if Lookup(d, k) != "" {
        var i :| 0 <= i < |d[1..]| && d[1..][i].1 == Lookup(d, k);
        assert d[i + 1].1 == Lookup(d, k);
      }
    }
  }

  // ---------------------------------------------------------------- nonce and ids

  function AlphabetChar(i: nat): (c: char)
    requires i < 62
    ensures IsAlnum(c)
  {
    if i < 26 then ('A' as int + i) as char
    else if i < 52 then ('a' as int + i - 26) as char
    else ('0' as int + i - 52) as char
  }

  /** The nonce alphabet: A-Z, a-z, 0-9, in that order. */
  const NonceAlphabet: string := seq(62, i requires 0 <= i < 62 => AlphabetChar(i))

  /** The alphabet holds exactly the ASCII letters and digits. */
  lemma NonceAlphabetIsAlnum(c: char)
    ensures c in NonceAlphabet <==> IsAlnum(c)
  {
    if IsAlnum(c) {
      var i := if IsUpper(c) then c as int - 'A' as int
               else if IsLower(c) then c as int - 'a' as int + 26
               else c as int - '0' as int + 52;
      assert NonceAlphabet[i] == c;
    }
  }

  lemma AlphabetIsAlnum()
    ensures |NonceAlphabet| == 62
    ensures forall j :: 0 <= j < 62 ==> NonceAlphabet[j] == AlphabetChar(j) && IsAlnum(NonceAlphabet[j])
  {
  }

  /** Draws of `crypto.randomInt(0, 62)`: 32 indices into the alphabet. */
  predicate ValidDraws(draws: seq<nat>) {
    |draws| == 32 && forall i :: 0 <= i < 32 ==> draws[i] < 62
  }

  /** The nonce the draws select. */
  function NonceOf(draws: seq<nat>): (nonce: string)
    requires ValidDraws(draws)
    ensures |nonce| == 32 && forall i :: 0 <= i < 32 ==> IsAlnum(nonce[i])
  {
    AlphabetIsAlnum();
    seq(32, i requires 0 <= i < 32 => NonceAlphabet[draws[i]])
  }

  /** Every 32-character alphanumeric text is a possible nonce. */
  lemma NonceOfOnto(nonce: string)
    requires |nonce| == 32 && forall i :: 0 <= i < 32 ==> IsAlnum(nonce[i])
    ensures exists draws :: ValidDraws(draws) && NonceOf(draws) == nonce
  {
    var draws := seq(32, i requires 0 <= i < 32 =>
      var c := nonce[i];
      if IsUpper(c) then (c as int - 'A' as int) as nat
      else if IsLower(c) then (c as int - 'a' as int + 26) as nat
      else (c as int - '0' as int + 52) as nat);
    assert ValidDraws(draws);
    AlphabetIsAlnum();
    assert forall i :: 0 <= i < 32 ==> NonceOf(draws)[i] == nonce[i];
    assert NonceOf(draws) == nonce;
  }

  /** `generateNonceStr`: 32 characters, one per draw. */
  method GenerateNonceStr(draws: seq<nat>) returns (nonce: string)
    requires ValidDraws(draws)
    ensures nonce == NonceOf(draws)
  {
    nonce := "";
    var i := 0;
    while i < 32
      invariant 0 <= i <= 32
      invariant |nonce| == i && forall j :: 0 <= j < i ==> nonce[j] == NonceAlphabet[draws[j]]
    {
      nonce := nonce + [NonceAlphabet[draws[i]]];
      i := i + 1;
    }
  }

  /** `merch_order_id`: the order id with every character other than an ASCII letter or
      digit removed. */
  function MerchOrderId(orderId: string): (r: string)
    ensures forall i :: 0 <= i < |r| ==> IsAlnum(r[i])
  {
    Filter(orderId, IsAlnum)
  }

  /** The merchant order id keeps the letters and digits of the order id, in order, and
      only those. */
  lemma MerchOrderIdKeeps(orderId: string)
    ensures IsSubsequence(MerchOrderId(orderId), orderId)
    ensures forall c :: c in MerchOrderId(orderId) <==> c in orderId && IsAlnum(c)
  {
    FilterIsSubsequence(orderId, IsAlnum);
    forall c ensures c in MerchOrderId(orderId) <==> c in orderId && IsAlnum(c) {
      FilterMembership(orderId, IsAlnum, c);
    }
  }

  /** An id that is already alphanumeric is sent unchanged, so sanitising is idempotent. */
  lemma MerchOrderIdIdempotent(orderId: string)
    ensures MerchOrderId(MerchOrderId(orderId)) == MerchOrderId(orderId)
  {
    FilterAll(MerchOrderId(orderId), IsAlnum);
  }

  // ---------------------------------------------------------------- return URL

  /** The characters the return-URL pattern accepts after the scheme. */
  predicate UrlChar(c: char) {
    IsAlnum(c) || c in "-+&@#/%?=~_|!:,.;[]()*"
  }

  predicate UrlTail(t: string) {
    |t| > 0 && forall i :: 0 <= i < |t| ==> UrlChar(t[i])
  }

  /** The pattern `^(https?|ftp)://` followed by one or more accepted characters. */
  predicate MatchesUrlPattern(u: string) {
    (StartsWith(u, "http://") && UrlTail(u[7..]))
    || (StartsWith(u, "https://") && UrlTail(u[8..]))
    || (StartsWith(u, "ftp://") && UrlTail(u[6..]))
  }

  const FallbackUrl: string := "https://your-default-url.com"

  /** The redirect URL sent to the gateway: the return URL when it matches the pattern,
      else the fixed fallback, which matches it too. */
  function SanitizeReturnUrl(u: string): (r: string)
    ensures MatchesUrlPattern(r)
    ensures MatchesUrlPattern(u) ==> r == u
    ensures r == u || r == FallbackUrl
  {
    if MatchesUrlPattern(u) then u
    else
      FallbackMatches();
      FallbackUrl
  }

  /** The fallback URL matches the pattern itself. */
  lemma FallbackMatches()
    ensures MatchesUrlPattern(FallbackUrl)
  {
    var tail := FallbackUrl[8..];
    assert StartsWith(FallbackUrl, "https://");
    assert tail == "your-default-url.com";
    forall i | 0 <= i < |tail| ensures UrlChar(tail[i]) {
      assert IsAlnum(tail[i]) || tail[i] == '-' || tail[i] == '.';
    }
  }

  lemma SanitizeReturnUrlIdempotent(u: string)
    ensures SanitizeReturnUrl(SanitizeReturnUrl(u)) == SanitizeReturnUrl(u)
  {
  }

  // ---------------------------------------------------------------- amounts

  /** amount.toFixed(2) for an amount held in hundredths. */
  function FormatAmount(cents: int): string {
    var a: nat := if cents < 0 then -cents else cents;
    (if cents < 0 then "-" else "") + AmountDigits(a)
  }

  /** parseFloat on decimal text, in hundredths: white space, a sign, digits and an
      optional fraction; trailing text is ignored. None for text with no digits (NaN) and
      for a value that is not a whole number of hundredths. */
  function ParseAmount(s: string): Option<int> {
    var t := TrimStart(s);
    if |t| > 0 && t[0] == '-' then
      match ParseUnsignedAmount(t[1..])
      case None => None
      case Some(v) => Some(-v)
    else if |t| > 0 && t[0] == '+' then ParseUnsignedAmount(t[1..])
    else ParseUnsignedAmount(t)
  }

  function ParseUnsignedAmount(body: string): Option<int> {
    var whole := DigitPrefix(body);
    var rest := body[|whole|..];
    var frac := if |rest| > 0 && rest[0] == '.' then DigitPrefix(rest[1..]) else "";
    if whole == "" && frac == "" then None
    else if exists i :: 2 <= i < |frac| && frac[i] != '0' then None
    else
      var f0 := if |frac| > 0 then frac[0] as int - '0' as int else 0;
      var f1 := if |frac| > 1 then frac[1] as int - '0' as int else 0;
      var w := if whole == "" then 0 else DigitsValue(whole);
      Some(w * 100 + f0 * 10 + f1)
  }

  lemma {:induction false} DigitPrefixStops(d: string, rest: string)
    requires AllDigits(d) && |rest| > 0 && !IsDigit(rest[0])
    ensures DigitPrefix(d + rest) == d
    decreases |d|
  {
    if |d| == 0 {
      assert d + rest == rest;
    } else {
      assert (d + rest)[1..] == d[1..] + rest;
      DigitPrefixStops(d[1..], rest);
      assert d == [d[0]] + d[1..];
    }
  }

  function AmountDigits(a: nat): string {
    NatToString(a / 100) + "." + [DigitChar(a % 100 / 10), DigitChar(a % 10)]
  }

  lemma ParseAmountDigits(a: nat)
    ensures ParseUnsignedAmount(AmountDigits(a)) == Some(a)
  {
    var w := NatToString(a / 100);
    var frac2 := [DigitChar(a % 100 / 10), DigitChar(a % 10)];
    var tail := "." + frac2;
    var body := AmountDigits(a);
    assert body == w + tail;
    DigitPrefixStops(w, tail);
    assert body[|w|..] == tail;
    assert tail[1..] == frac2;
    DigitPrefixOfDigits(frac2);
    DigitsValueOfNatToString(a / 100);
    assert a == (a / 100) * 100 + (a % 100 / 10) * 10 + a % 10;
  }

  lemma AmountDigitsStart(a: nat)
    ensures |AmountDigits(a)| > 0 && IsDigit(AmountDigits(a)[0])
  {
    var w := NatToString(a / 100);
    assert AmountDigits(a)[0] == w[0];
  }

  /** parseFloat of text that starts with a digit, with or without a leading '-'. */
  lemma ParseAmountSigned(body: string)
    requires |body| > 0 && IsDigit(body[0])
    ensures ParseAmount(body) == ParseUnsignedAmount(body)
    ensures ParseAmount("-" + body) == match ParseUnsignedAmount(body)
                                       case None => None
                                       case Some(v) => Some(-v)
  {
    assert TrimStart(body) == body;
    var s := "-" + body;
    assert TrimStart(s) == s;
    assert s[1..] == body;
  }

  /** parseFloat reads back the amount toFixed(2) wrote. */
  lemma ParseFormatAmount(cents: int)
    ensures ParseAmount(FormatAmount(cents)) == Some(cents)
  {
    var a: nat := if cents < 0 then -cents else cents;
    ParseAmountDigits(a);
    AmountDigitsStart(a);
    ParseAmountSigned(AmountDigits(a));
    if cents >= 0 {
      assert FormatAmount(cents) == AmountDigits(a);
    }
  }

  // ---------------------------------------------------------------- service configuration

  /** The environment the service reads. */
  datatype Env = Env(mode: Option<string>, merchantId: string, merchantCode: string, notifyUrl: string)

  datatype Service = Service(mode: string, merchantId: string, merchantCode: string,
                             notifyUrl: string, baseUrl: string, checkoutBaseUrl: string)

  const SandboxGateway: string := "https://196.188.120.3:38443/apiaccess/payment/gateway"
  const SandboxCheckout: string := "https://196.188.120.3:38443/payment/web/paygate"
  const ProductionGateway: string := "https://api.ethiotelebirr.et"
  const ProductionCheckout: string := "https://portal.ethiotelebirr.et/payment/web/paygate"

  /** Certificate checking is switched off exactly when TELEBIRR_MODE is "sandbox". */
  predicate RelaxedTls(env: Env) { env.mode == Some("sandbox") }

  /** The service's mode (TELEBIRR_MODE, "sandbox" when unset or empty) and the endpoints
      it selects: the sandbox pair in sandbox mode, the production pair otherwise. */
  function NewService(env: Env): (svc: Service)
    ensures svc.mode == "sandbox" <==> svc.baseUrl == SandboxGateway
    ensures svc.baseUrl == SandboxGateway <==> svc.checkoutBaseUrl == SandboxCheckout
    ensures svc.mode == OrElse(env.mode, "sandbox")
  {
    var mode := OrElse(env.mode, "sandbox");
    if mode == "sandbox" then
      Service(mode, env.merchantId, env.merchantCode, env.notifyUrl, SandboxGateway, SandboxCheckout)
    else
      Service(mode, env.merchantId, env.merchantCode, env.notifyUrl, ProductionGateway, ProductionCheckout)
  }

  /** Relaxed certificate checking is only ever used against the sandbox endpoints; an
      unset or empty mode also selects the sandbox, but with certificates checked. */
  lemma RelaxedTlsOnlyInSandbox(env: Env)
    ensures RelaxedTls(env) ==> NewService(env).baseUrl == SandboxGateway
    ensures !Truthy(env.mode) ==> NewService(env).baseUrl == SandboxGateway && !RelaxedTls(env)
    ensures NewService(env).baseUrl == ProductionGateway <==> Truthy(env.mode) && env.mode.value != "sandbox"
  {
  }

  // ---------------------------------------------------------------- the pre-order request

  datatype PaymentRequest = PaymentRequest(orderId: string, amountCents: int, userId: string,
                                           planId: string, returnUrl: string, cancelUrl: string)

  const SignType: string := "SHA256WithRSA"

  function Title(planId: string): string { "Plan " + planId + " for user" }

  /** Seconds since the epoch, as text. */
  function Timestamp(nowMs: nat): string { NatToString(nowMs / 1000) }

  function BizContent(svc: Service, req: PaymentRequest): seq<(string, Json)> {
    [("appid", JStr(svc.merchantId)), ("merch_code", JStr(svc.merchantCode)),
     ("merch_order_id", JStr(MerchOrderId(req.orderId))), ("trade_type", JStr("Checkout")),
     ("title", JStr(Title(req.planId))), ("total_amount", JStr(FormatAmount(req.amountCents))),
     ("trans_currency", JStr("ETB")), ("timeout_express", JStr("120m")),
     ("business_type", JStr("BuyGoods")), ("notify_url", JStr(svc.notifyUrl)),
     ("redirect_url", JStr(SanitizeReturnUrl(req.returnUrl))), ("callback_info", JStr("From web"))]
  }

  function RequestData(svc: Service, req: PaymentRequest, nonce: string, timestamp: string): seq<(string, Json)> {
    [("timestamp", JStr(timestamp)), ("nonce_str", JStr(nonce)), ("method", JStr("payment.preorder")),
     ("version", JStr("1.0")), ("biz_content", JObj(BizContent(svc, req)))]
  }

  /** The request posted to the gateway: the signed data followed by the signature and its
      type. */
  function FinalRequest(data: seq<(string, Json)>, signature: string): seq<(string, Json)> {
    data + [("sign", JStr(signature)), ("sign_type", JStr(SignType))]
  }

  /** The pre-order's flat map holds the twelve business fields at the top level and no
      `biz_content` key. */
  lemma RequestDataFlat(svc: Service, req: PaymentRequest, nonce: string, timestamp: string)
    ensures "biz_content" !in Keys(Flatten(RequestData(svc, req, nonce, timestamp)))
    ensures forall j :: 0 <= j < 12 ==> BizContent(svc, req)[j].0 in Keys(Flatten(RequestData(svc, req, nonce, timestamp)))
  {
    var data := RequestData(svc, req, nonce, timestamp);
    var biz := BizContent(svc, req);
    assert "biz_content" !in Keys(biz);
    FlattenDropsBizContent(data);
    forall j | 0 <= j < 12 ensures biz[j].0 in Keys(Flatten(data)) {
      assert !Excluded(biz[j].0);
      FlattenHoistsBizContent(data, 4, j);
    }
  }

  // ---------------------------------------------------------------- gateway replies

  /** What an HTTP call produced: a reply with a status and its raw body, no reply at all,
      or a failure to send the request. */
  datatype Reply = Reply(status: int, body: string) | NoReply | SetupFailure(message: string)

  /** Why the inner pre-order handling threw. */
  datatype Cause =
    | NonJson(raw: string)            // the body is not JSON; the error carries the body
    | PreOrderRejected(parsed: Json)  // no biz_content.prepay_id in the reply
    | NullReply                       // the body is the JSON null: reading a member throws
    | Setup(message: string)          // the request could not be sent

  /** The errors `createOrder` and `constructRawRequest` throw. */
  datatype OrderError =
    | TokenFailed                         // "Failed to get token from Telebirr"
    | UriMalformed                        // decodeURIComponent threw while signing
    | SignatureFailed                     // "Failed to create payment signature: ..."
    | ApiError(status: int, body: string) // "Telebirr API error <status>: <body>"
    | NoResponse                          // "No response from Telebirr gateway"
    | AxiosError(cause: Cause)            // "Axios error: <message>"

  predicate Success(status: int) { 200 <= status < 300 }

  /** `getToken`: the `token` member of a successful JSON reply; every failure becomes the
      one token error. */
  function GetToken(reply: Reply, parse: string -> Option<Json>): (r: Result<string, OrderError>)
    ensures r.Ok? <==> reply.Reply? && Success(reply.status) && parse(reply.body).Some?
                       && JsTruthy(Member(parse(reply.body).value, "token"))
    ensures r.Ok? ==> r.value == Render(Member(parse(reply.body).value, "token"))
    ensures r.Err? ==> r.error == TokenFailed
  {
    if reply.Reply? && Success(reply.status) then
      match parse(reply.body)
      case None => Err(TokenFailed)
      case Some(data) =>
        if data.JNull? || !JsTruthy(Member(data, "token")) then Err(TokenFailed)
        else Ok(Render(Member(data, "token")))
    else Err(TokenFailed)
  }

  /** A successful reply whose JSON object holds a non-empty string token yields exactly
      that token; a reply outside the 2xx range, no reply, or a failed request setup
      yields the token error whatever the body holds. */
  lemma GetTokenReply(status: int, body: string, parse: string -> Option<Json>, fields: seq<(string, Json)>, token: string)
    requires parse(body) == Some(JObj(fields)) && Get(fields, "token") == Some(JStr(token))
    ensures GetToken(Reply(status, body), parse) == if Success(status) && token != "" then Ok(token) else Err(TokenFailed)
    ensures GetToken(NoReply, parse) == Err(TokenFailed)
    ensures GetToken(SetupFailure(body), parse) == Err(TokenFailed)
  {
  }

  function PrepayIdOf(parsed: Json): Json {
    var biz := Member(parsed, "biz_content");
    if JsTruthy(biz) then Member(biz, "prepay_id") else JNull
  }

  /** Decoding the raw pre-order reply: JSON first, then `biz_content.prepay_id`. */
  function DecodePreOrder(body: string, parse: string -> Option<Json>): (r: Result<string, Cause>)
    ensures parse(body).None? ==> r == Err(NonJson(body))
    ensures r.Ok? <==> parse(body).Some? && !parse(body).value.JNull? && JsTruthy(PrepayIdOf(parse(body).value))
    ensures r.Ok? ==> r.value == Render(PrepayIdOf(parse(body).value))
  {
    match parse(body)
    case None => Err(NonJson(body))
    case Some(parsed) =>
      if parsed.JNull? then Err(NullReply)
      else if !JsTruthy(Member(parsed, "biz_content")) || !JsTruthy(Member(Member(parsed, "biz_content"), "prepay_id"))
      then Err(PreOrderRejected(parsed))
      else Ok(Render(Member(Member(parsed, "biz_content"), "prepay_id")))
  }

  /** The guarded part of `createOrder`: the gateway's reply, decoded. The catch block
      re-wraps every error: a non-2xx reply, no reply, and any other error, including the
      decoding errors just thrown in the same block, which come out as "Axios error". */
  function PreOrderOutcome(reply: Reply, parse: string -> Option<Json>): (r: Result<string, OrderError>)
    ensures reply.Reply? && Success(reply.status) && parse(reply.body).None? ==>
              r == Err(AxiosError(NonJson(reply.body)))
    ensures r.Ok? <==> reply.Reply? && Success(reply.status) && DecodePreOrder(reply.body, parse).Ok?
    ensures r.Ok? ==> r.value == DecodePreOrder(reply.body, parse).value
  {
    match reply
    case Reply(status, body) =>
      if !Success(status) then Err(ApiError(status, body))
      else (match DecodePreOrder(body, parse)
        case Ok(id) => Ok(id)
        case Err(c) => Err(AxiosError(c)))
    case NoReply => Err(NoResponse)
    case SetupFailure(m) => Err(AxiosError(Setup(m)))
  }

  /** The outside world of one payment: two token/gateway replies, random draws and clock
      readings for the two nonces, the JSON parser and the RSA signer (None when it throws). */
  datatype Effects = Effects(
    tokenReply: Reply,
    orderDraws: seq<nat>, orderNowMs: nat,
    gateway: seq<(string, Json)> -> Reply,
    checkoutDraws: seq<nat>, checkoutNowMs: nat,
    parse: string -> Option<Json>,
    sign: string -> Option<string>)

  predicate ValidEffects(fx: Effects) {
    ValidDraws(fx.orderDraws) && ValidDraws(fx.checkoutDraws)
  }

  function OrderData(svc: Service, req: PaymentRequest, fx: Effects): seq<(string, Json)>
    requires ValidEffects(fx)
  {
    RequestData(svc, req, NonceOf(fx.orderDraws), Timestamp(fx.orderNowMs))
  }

  /** `createOrder` over the request data it signs: token, signature of the data's
      canonical text, decoded reply. The errors of the token call, of decoding a value and
      of signing escape unwrapped; the reply is posted as the final request built from
      exactly the signed data. */
  function PreOrder(data: seq<(string, Json)>, fx: Effects): Result<string, OrderError> {
    match GetToken(fx.tokenReply, fx.parse)
    case Err(e) => Err(e)
    case Ok(_) =>
      match SignString(Flatten(data))
      case None => Err(UriMalformed)
      case Some(text) =>
        match fx.sign(text)
        case None => Err(SignatureFailed)
        case Some(sig) => PreOrderOutcome(fx.gateway(FinalRequest(data, sig)), fx.parse)
  }

  /** `createOrder`: the pre-order over the request built from the service, the payment
      request, a fresh nonce and the current time. */
  function CreateOrder(svc: Service, req: PaymentRequest, fx: Effects): Result<string, OrderError>
    requires ValidEffects(fx)
  {
    PreOrder(OrderData(svc, req, fx), fx)
  }

  /** A failed token call fails the order; a prepay id only comes from the gateway's reply
      to the final request built from the signed data and a signature of its text. */
  lemma PreOrderSpec(data: seq<(string, Json)>, fx: Effects)
    ensures GetToken(fx.tokenReply, fx.parse).Err? ==> PreOrder(data, fx) == Err(TokenFailed)
    ensures PreOrder(data, fx).Ok? ==> exists sig ::
              SignString(Flatten(data)).Some?
              && fx.sign(SignString(Flatten(data)).value) == Some(sig)
              && PreOrderOutcome(fx.gateway(FinalRequest(data, sig)), fx.parse) == PreOrder(data, fx)
  {
  }

  // ---------------------------------------------------------------- checkout URL

  /** The five fields of the checkout request, in insertion order. */
  function CheckoutFields(svc: Service, prepayId: string, nonce: string, timestamp: string): Dict {
    [("appid", svc.merchantId), ("merch_code", svc.merchantCode), ("nonce_str", nonce),
     ("prepay_id", prepayId), ("timestamp", timestamp)]
  }

  /** `URLSearchParams(...).toString()`: each name and value form-encoded, `name=value`,
      joined by '&'. */
  function FormQuery(d: Dict): string {
    Join(seq(|d|, i requires 0 <= i < |d| => FormEncode(d[i].0) + "=" + FormEncode(d[i].1)), "&")
  }

  function QueryPairs(d: Dict): (ps: seq<string>)
    ensures |ps| == |d| && forall i :: 0 <= i < |d| ==> ps[i] == FormEncode(d[i].0) + "=" + FormEncode(d[i].1)
  {
    seq(|d|, i requires 0 <= i < |d| => FormEncode(d[i].0) + "=" + FormEncode(d[i].1))
  }

  /** `constructRawRequest`: the checkout fields signed as their sorted `k=v` join, without
      any decoding, then written as a form-encoded query with `sign` and `sign_type` appended.
      The query splits on '&' into the seven encoded pairs in that order. */
  function ConstructRawRequest(svc: Service, prepayId: string, nonce: string, timestamp: string,
                               sign: string -> Option<string>): (r: Result<string, OrderError>)
    ensures r.Err? <==> sign(CanonicalText(CheckoutFields(svc, prepayId, nonce, timestamp))).None?
    ensures r.Err? ==> r.error == SignatureFailed
    ensures r.Ok? ==> var sig := sign(CanonicalText(CheckoutFields(svc, prepayId, nonce, timestamp))).value;
                      var d := CheckoutFields(svc, prepayId, nonce, timestamp) + [("sign", sig), ("sign_type", SignType)];
                      r.value == Join(QueryPairs(d), "&") && Split(r.value, '&') == QueryPairs(d)
  {
    var maps := CheckoutFields(svc, prepayId, nonce, timestamp);
    match sign(CanonicalText(maps))
    case None => Err(SignatureFailed)
    case Some(sig) =>
      CheckoutQueryFields(svc, prepayId, nonce, timestamp, sig);
      Ok(FormQuery(maps + [("sign", sig), ("sign_type", SignType)]))
  }

  /** The checkout fields are already in ascending key order, so the signed text lists them
      in the order the query does. */
  lemma CheckoutFieldsSorted(svc: Service, prepayId: string, nonce: string, timestamp: string)
    ensures Sort(Keys(CheckoutFields(svc, prepayId, nonce, timestamp)))
         == ["appid", "merch_code", "nonce_str", "prepay_id", "timestamp"]
  {
    var ks := Keys(CheckoutFields(svc, prepayId, nonce, timestamp));
    assert ks == ["appid", "merch_code", "nonce_str", "prepay_id", "timestamp"];
    assert ks[1..] == ["merch_code", "nonce_str", "prepay_id", "timestamp"];
    assert ks[2..] == ["nonce_str", "prepay_id", "timestamp"];
    assert ks[3..] == ["prepay_id", "timestamp"];
    assert ks[4..] == ["timestamp"];
    assert Sort(ks[4..]) == ["timestamp"];
    assert LexLe("prepay_id", "timestamp");
    assert Sort(ks[3..]) == ["prepay_id", "timestamp"];
    assert LexLe("nonce_str", "prepay_id");
    assert Sort(ks[2..]) == ["nonce_str", "prepay_id", "timestamp"];
    assert LexLe("merch_code", "nonce_str");
    assert Sort(ks[1..]) == ["merch_code", "nonce_str", "prepay_id", "timestamp"];
    assert LexLe("appid", "merch_code");
  }

  /** A form-encoded text holds no '&'. */
  lemma NoAmpersandInEncoded(s: string)
    ensures '&' !in FormEncode(s)
  {
    FormEncodeChars(s);
  }

  /** A form-encoded `name=value` pair holds no '&'. */
  lemma NoAmpersandInPair(k: string, v: string)
    ensures '&' !in FormEncode(k) + "=" + FormEncode(v)
  {
    NoAmpersandInEncoded(k);
    NoAmpersandInEncoded(v);
  }

  /** The checkout query splits on '&' into the seven encoded `name=value` fields
      (appid, merch_code, nonce_str, prepay_id, timestamp, sign, sign_type), and
      decodeURIComponent recovers every value (a space as '+'). */
  lemma CheckoutQueryFields(svc: Service, prepayId: string, nonce: string, timestamp: string, sig: string)
    ensures var d := CheckoutFields(svc, prepayId, nonce, timestamp) + [("sign", sig), ("sign_type", SignType)];
            Split(FormQuery(d), '&') == QueryPairs(d)
            && forall i :: 0 <= i < |d| ==> PercentDecode(FormEncode(d[i].1)) == Some(SpaceToPlus(d[i].1))
  {
    var d := CheckoutFields(svc, prepayId, nonce, timestamp) + [("sign", sig), ("sign_type", SignType)];
    var ps := QueryPairs(d);
    forall i | 0 <= i < |ps| ensures '&' !in ps[i] {
      NoAmpersandInPair(d[i].0, d[i].1);
    }
    assert FormQuery(d) == Join(ps, "&");
    SplitJoin(ps, '&');
    forall i | 0 <= i < |d| ensures PercentDecode(FormEncode(d[i].1)) == Some(SpaceToPlus(d[i].1)) {
      DecodeFormEncode(d[i].1);
    }
  }

  datatype Checkout = Checkout(prepayId: string, checkoutUrl: string)

  function CheckoutUrl(svc: Service, rawRequest: string): string {
    svc.checkoutBaseUrl + "?" + rawRequest + "&version=1.0&trade_type=Checkout"
  }

  /** The checkout stage of `createPayment`, under a nonce and a timestamp of its own: the
      checkout URL over the prepay id the pre-order returned, or the pre-order's error. */
  function CheckoutStage(svc: Service, order: Result<string, OrderError>, nonce: string, timestamp: string,
                         sign: string -> Option<string>): Result<Checkout, OrderError> {
    match order
    case Err(e) => Err(e)
    case Ok(prepayId) =>
      match ConstructRawRequest(svc, prepayId, nonce, timestamp, sign)
      case Err(e) => Err(e)
      case Ok(raw) => Ok(Checkout(prepayId, CheckoutUrl(svc, raw)))
  }

  /** `createPayment`: the pre-order, then the checkout URL over the prepay id it returned. */
  function CreatePayment(svc: Service, req: PaymentRequest, fx: Effects): Result<Checkout, OrderError>
    requires ValidEffects(fx)
  {
    CheckoutStage(svc, CreateOrder(svc, req, fx), NonceOf(fx.checkoutDraws), Timestamp(fx.checkoutNowMs), fx.sign)
  }

  lemma CheckoutUrlPrefix(svc: Service, raw: string)
    ensures StartsWith(CheckoutUrl(svc, raw), svc.checkoutBaseUrl + "?")
  {
    var url := CheckoutUrl(svc, raw);
    assert url[..|svc.checkoutBaseUrl + "?"|] == svc.checkoutBaseUrl + "?";
  }

  /** The checkout URL is the endpoint, '?', and the query's pairs followed by the version
      and trade type, all joined by '&'; no pair holds a '&', so that text splits back into
      exactly those pairs. */
  lemma CheckoutUrlQuery(svc: Service, pairs: seq<string>)
    requires |pairs| >= 1 && forall i :: 0 <= i < |pairs| ==> '&' !in pairs[i]
    ensures var url := CheckoutUrl(svc, Join(pairs, "&"));
            var tail := pairs + ["version=1.0", "trade_type=Checkout"];
            && url == svc.checkoutBaseUrl + "?" + Join(tail, "&")
            && Split(url[|svc.checkoutBaseUrl| + 1..], '&') == tail
  {
    CheckoutTailJoin(pairs);
    var prefix := svc.checkoutBaseUrl + "?";
    var rest := Join(pairs + ["version=1.0", "trade_type=Checkout"], "&");
    assert CheckoutUrl(svc, Join(pairs, "&")) == prefix + rest;
    assert (prefix + rest)[|prefix|..] == rest;
    SuffixLiteral();
    SplitJoinTwoMore(pairs, '&', "version=1.0", "trade_type=Checkout");
  }

  lemma SplitJoinTwoMore(pairs: seq<string>, sep: char, v: string, t: string)
    requires |pairs| >= 1 && forall i :: 0 <= i < |pairs| ==> sep !in pairs[i]
    requires sep !in v && sep !in t
    ensures Split(Join(pairs + [v, t], [sep]), sep) == pairs + [v, t]
  {
    var tail := pairs + [v, t];
    forall i | 0 <= i < |tail| ensures sep !in tail[i] {
      if i < |pairs| {
        assert tail[i] == pairs[i];
      }
    }
    SplitJoin(tail, sep);
  }

  lemma CheckoutTailJoin(pairs: seq<string>)
    requires |pairs| >= 1
    ensures Join(pairs + ["version=1.0", "trade_type=Checkout"], "&") == Join(pairs, "&") + "&version=1.0&trade_type=Checkout"
  {
    JoinTwoMore(pairs, "&", "version=1.0", "trade_type=Checkout");
    SuffixLiteral();
  }

  lemma JoinTwoMore(pairs: seq<string>, sep: string, v: string, t: string)
    requires |pairs| >= 1
    ensures Join(pairs + [v, t], sep) == Join(pairs, sep) + (sep + v + sep + t)
  {
    var j := Join(pairs, sep);
    JoinSnoc(pairs, sep, v);
    JoinSnoc(pairs + [v], sep, t);
    assert pairs + [v] + [t] == pairs + [v, t];
    Regroup(j, sep, v, t);
  }

  lemma Regroup(j: string, sep: string, v: string, t: string)
    ensures j + sep + v + sep + t == j + (sep + v + sep + t)
  {
  }

  /** The fixed tail of the checkout URL, piece by piece. */
  lemma SuffixLiteral()
    ensures "&" + "version=1.0" + "&" + "trade_type=Checkout" == "&version=1.0&trade_type=Checkout"
    ensures '&' !in "version=1.0" && '&' !in "trade_type=Checkout"
  {
  }

  /** A checkout is returned exactly when the pre-order and the signing of the checkout
      fields both succeed; it carries the pre-order's prepay id, and its URL is the checkout
      endpoint, '?', then the seven encoded fields (the five checkout fields, the signature
      of their sorted `k=v` text and the sign type), the version and the trade type, joined
      by '&'. A failed pre-order fails the payment with its own error. */
  lemma CheckoutStageSpec(svc: Service, order: Result<string, OrderError>, nonce: string, timestamp: string,
                          sign: string -> Option<string>)
    ensures var r := CheckoutStage(svc, order, nonce, timestamp, sign);
            && (r.Ok? <==> order.Ok? && ConstructRawRequest(svc, order.value, nonce, timestamp, sign).Ok?)
            && (r.Ok? ==> r.value.prepayId == order.value
                          && StartsWith(r.value.checkoutUrl, svc.checkoutBaseUrl + "?"))
            && (r.Ok? ==>
                  var fields := CheckoutFields(svc, order.value, nonce, timestamp);
                  var d := fields + [("sign", sign(CanonicalText(fields)).value), ("sign_type", SignType)];
                  var tail := QueryPairs(d) + ["version=1.0", "trade_type=Checkout"];
                  && r.value.checkoutUrl == svc.checkoutBaseUrl + "?" + Join(tail, "&")
                  && Split(r.value.checkoutUrl[|svc.checkoutBaseUrl| + 1..], '&') == tail)
            && (order.Err? ==> r == Err(order.error))
  {
    if order.Ok? {
      var raw := ConstructRawRequest(svc, order.value, nonce, timestamp, sign);
      if raw.Ok? {
        CheckoutUrlPrefix(svc, raw.value);
        var fields := CheckoutFields(svc, order.value, nonce, timestamp);
        var d := fields + [("sign", sign(CanonicalText(fields)).value), ("sign_type", SignType)];
        var ps := QueryPairs(d);
        forall i | 0 <= i < |ps| ensures '&' !in ps[i] {
          NoAmpersandInPair(d[i].0, d[i].1);
        }
        CheckoutUrlQuery(svc, ps);
      }
    }
  }

  // ---------------------------------------------------------------- callbacks

  predicate NotSignField(e: (string, Json)) { e.0 != "sign" && e.0 != "sign_type" }

  /** The callback fields apart from `sign` and `sign_type`, rendered as text. */
  function VerifiedFields(fields: seq<(string, Json)>): (d: Dict)
    ensures |d| <= |fields|
    ensures forall i :: 0 <= i < |d| ==> d[i].0 != "sign" && d[i].0 != "sign_type"
  {
    var rest := Filter(fields, NotSignField);
    seq(|rest|, i requires 0 <= i < |rest| => (rest[i].0, Render(rest[i].1)))
  }

  /** `verifyTelebirrCallback`: false unless `sign_type` is exactly "SHA256WithRSA"; then the
      verdict of the RSA check on the canonical text of the other fields, and false when
      that check throws (None). */
  function VerifyCallback(fields: seq<(string, Json)>, verify: (string, Json) -> Option<bool>): (ok: bool)
    ensures ok <==> Member(JObj(fields), "sign_type") == JStr(SignType)
                    && verify(CanonicalText(VerifiedFields(fields)), Member(JObj(fields), "sign")) == Some(true)
  {
    if Member(JObj(fields), "sign_type") != JStr(SignType) then false
    else match verify(CanonicalText(VerifiedFields(fields)), Member(JObj(fields), "sign"))
      case None => false
      case Some(b) => b
  }

  /** The verified text names every callback field except `sign` and `sign_type`. */
  lemma VerifiedFieldsKeys(fields: seq<(string, Json)>, k: string)
    ensures k in Keys(VerifiedFields(fields)) <==> k in Keys(fields) && k != "sign" && k != "sign_type"
  {
    var rest := Filter(fields, NotSignField);
    if k in Keys(fields) && k != "sign" && k != "sign_type" {
      var i :| 0 <= i < |fields| && fields[i].0 == k;
      FilterMembership(fields, NotSignField, fields[i]);
      var j :| 0 <= j < |rest| && rest[j] == fields[i];
      assert Keys(VerifiedFields(fields))[j] == k;
    }
    if k in Keys(VerifiedFields(fields)) {
      var j :| 0 <= j < |rest| && rest[j].0 == k;
      FilterMembership(fields, NotSignField, rest[j]);
      var i :| 0 <= i < |fields| && fields[i] == rest[j];
      assert Keys(fields)[i] == k;
    }
  }
}
