/** Percent-encoding as the Telebirr client meets it: `decodeURIComponent`, applied to every
    value of the pre-order signing string, and the application/x-www-form-urlencoded
    serializer behind `URLSearchParams.toString()`, which writes the checkout query.
    Both work on the UTF-8 bytes of the text (RFC 3629). */
module Uri {
  import opened Common

  type Byte = b: int | 0 <= b < 256

  // ---------------------------------------------------------------- UTF-8

  /** UTF-8 encoding of one Unicode scalar value (section 3 of RFC 3629). */
  function Utf8(c: char): (bs: seq<Byte>)
    ensures 1 <= |bs| <= 4
  {
    var cp := c as int;
    if cp < 0x80 then [cp]
    else if cp < 0x800 then [0xC0 + cp / 64, 0x80 + cp % 64]
    else if cp < 0x10000 then [0xE0 + (cp / 64) / 64, 0x80 + (cp / 64) % 64, 0x80 + cp % 64]
    else [0xF0 + ((cp / 64) / 64) / 64, 0x80 + ((cp / 64) / 64) % 64, 0x80 + (cp / 64) % 64, 0x80 + cp % 64]
  }

  predicate IsCont(b: Byte) { 0x80 <= b < 0xC0 }

  /** Length of the sequence a lead byte of at least 0x80 announces; 0 when such a byte
      cannot start a sequence (a continuation byte, or more than four leading ones). */
  function SeqLen(b: Byte): nat {
    if 0xC0 <= b < 0xE0 then 2 else if 0xE0 <= b < 0xF0 then 3 else if 0xF0 <= b < 0xF8 then 4 else 0
  }

  /** The scalar value a multi-byte sequence encodes, or None when the sequence is not
      the shortest form, encodes a surrogate or exceeds U+10FFFF. */
  function DecodeSeq(lead: Byte, cont: seq<Byte>): Option<char>
    requires SeqLen(lead) >= 2 && |cont| == SeqLen(lead) - 1
    requires forall i :: 0 <= i < |cont| ==> IsCont(cont[i])
  {
    var l: int := lead;
    if |cont| == 1 then
      var cp := (l - 0xC0) * 64 + (cont[0] as int - 0x80);
      if cp < 0x80 then None else Some(cp as char)
    else if |cont| == 2 then
      var cp := ((l - 0xE0) * 64 + (cont[0] as int - 0x80)) * 64 + (cont[1] as int - 0x80);
      if cp < 0x800 || 0xD800 <= cp < 0xE000 then None else Some(cp as char)
    else
      var cp := (((l - 0xF0) * 64 + (cont[0] as int - 0x80)) * 64 + (cont[1] as int - 0x80)) * 64 + (cont[2] as int - 0x80);
      if cp < 0x10000 || cp > 0x10FFFF then None else Some(cp as char)
  }

  /** The multi-byte encoding of a character is a well-formed sequence that decodes back
      to that character. */
  lemma Utf8Decodes(c: char)
    requires c as int >= 0x80
    ensures SeqLen(Utf8(c)[0]) == |Utf8(c)|
    ensures forall i :: 1 <= i < |Utf8(c)| ==> IsCont(Utf8(c)[i])
    ensures DecodeSeq(Utf8(c)[0], Utf8(c)[1..]) == Some(c)
  {
    var cp := c as int;
    var q := cp / 64;
    assert cp == q * 64 + cp % 64;
    if cp >= 0x800 {
      var q2 := q / 64;
      assert q == q2 * 64 + q % 64;
      if cp >= 0x10000 {
        assert q2 == (q2 / 64) * 64 + q2 % 64;
      }
    }
  }

  // ---------------------------------------------------------------- decodeURIComponent

  /** The byte written as "%XY" at the front of s, if s starts that way. */
  function Octet(s: string): (r: Option<Byte>)
    ensures r.Some? ==> |s| >= 3
  {
    if |s| >= 3 && s[0] == '%' && IsHexDigit(s[1]) && IsHexDigit(s[2])
    then Some(HexValue(s[1]) * 16 + HexValue(s[2]))
    else None
  }

  /** Reads k escaped continuation bytes from the front of s. */
  function Conts(s: string, k: nat): (r: Option<seq<Byte>>)
    ensures r.Some? ==> |r.value| == k && 3 * k <= |s|
    ensures r.Some? ==> forall i :: 0 <= i < k ==> IsCont(r.value[i])
    decreases k
  {
    if k == 0 then Some([])
    else match Octet(s)
      case None => None
      case Some(b) =>
        if !IsCont(b) then None
        else match Conts(s[3..], k - 1)
          case None => None
          case Some(rest) => Some([b] + rest)
  }

  function Prepend(c: char, r: Option<string>): Option<string> {
    match r
    case None => None
    case Some(t) => Some([c] + t)
  }

  /** decodeURIComponent (the Decode operation of section 19.2.6 of ECMA-262 with an empty
      reserved set): None stands for the URIError thrown on a malformed escape or an
      invalid UTF-8 sequence. */
  function PercentDecode(s: string): Option<string>
    decreases |s|
  {
    if |s| == 0 then Some("")
    else if s[0] != '%' then Prepend(s[0], PercentDecode(s[1..]))
    else match Octet(s)
      case None => None
      case Some(b) =>
        if b < 0x80 then Prepend(b as char, PercentDecode(s[3..]))
        else if SeqLen(b) == 0 then None
        else match Conts(s[3..], SeqLen(b) - 1)
          case None => None
          case Some(cont) =>
            match DecodeSeq(b, cont)
            case None => None
            case Some(c) => Prepend(c, PercentDecode(s[3 * SeqLen(b)..]))
  }

  /** Text without '%' decodes to itself. */
  lemma {:induction false} PercentDecodePlain(s: string)
    requires '%' !in s
    ensures PercentDecode(s) == Some(s)
    decreases |s|
  {
    if |s| > 0 {
      assert s[0] != '%';
      PercentDecodePlain(s[1..]);
      assert s == [s[0]] + s[1..];
    }
  }

  /** A '%' that does not start two hexadecimal digits makes decoding fail. */
  lemma BadEscapeFails(s: string)
    requires |s| > 0 && s[0] == '%'
    requires |s| < 3 || !IsHexDigit(s[1]) || !IsHexDigit(s[2])
    ensures PercentDecode(s) == None
  {
  }

  // ---------------------------------------------------------------- form encoding

  /** Bytes the form-urlencoded serializer writes as themselves. */
  predicate FormSafe(b: Byte) {
    b == 0x2A || b == 0x2D || b == 0x2E || b == 0x5F
    || 0x30 <= b <= 0x39 || 0x41 <= b <= 0x5A || 0x61 <= b <= 0x7A
  }

  function Escape(b: Byte): string {
    ['%', HexChar(b / 16), HexChar(b % 16)]
  }

  function EncodeByte(b: Byte): string {
    if b == 0x20 then "+" else if FormSafe(b) then [b as char] else Escape(b)
  }

  function EncodeBytes(bs: seq<Byte>): string
    decreases |bs|
  {
    if |bs| == 0 then "" else EncodeByte(bs[0]) + EncodeBytes(bs[1..])
  }

  /** The application/x-www-form-urlencoded byte serializer of the WHATWG URL standard, as
      `URLSearchParams.toString()` applies it to each name and value. */
  function FormEncode(s: string): string
    decreases |s|
  {
    if |s| == 0 then "" else EncodeBytes(Utf8(s[0])) + FormEncode(s[1..])
  }

  /** Characters that can appear in form-encoded text. */
  predicate FormChar(c: char) {
    IsAlnum(c) || c == '*' || c == '-' || c == '.' || c == '_' || c == '+' || c == '%'
  }

  lemma {:induction false} EncodeBytesChars(bs: seq<Byte>)
    ensures forall i :: 0 <= i < |EncodeBytes(bs)| ==> FormChar(EncodeBytes(bs)[i])
    decreases |bs|
  {
    if |bs| > 0 {
      EncodeBytesChars(bs[1..]);
      var e := EncodeByte(bs[0]);
      assert forall i :: 0 <= i < |e| ==> FormChar(e[i]);
      assert EncodeBytes(bs) == e + EncodeBytes(bs[1..]);
    }
  }

  /** Form-encoded text is made of letters, digits, `*-._+` and '%' only, so it never
      contains the '&' and '=' that separate the query's fields. */
  lemma {:induction false} FormEncodeChars(s: string)
    ensures forall i :: 0 <= i < |FormEncode(s)| ==> FormChar(FormEncode(s)[i])
    decreases |s|
  {
    if |s| > 0 {
      EncodeBytesChars(Utf8(s[0]));
      FormEncodeChars(s[1..]);
      assert FormEncode(s) == EncodeBytes(Utf8(s[0])) + FormEncode(s[1..]);
    }
  }

  /** Form encoding leaves the characters of its safe set unchanged, so alphanumeric text
      (a nonce, a timestamp) is written as it is. */
  lemma {:induction false} FormEncodeSafeText(s: string)
    requires forall i :: 0 <= i < |s| ==> IsAlnum(s[i]) || s[i] == '*' || s[i] == '-' || s[i] == '.' || s[i] == '_'
    ensures FormEncode(s) == s
    decreases |s|
  {
    if |s| > 0 {
      FormEncodeSafeText(s[1..]);
      var b: Byte := s[0] as int;
      assert Utf8(s[0]) == [b];
      assert FormSafe(b) && (b as char) == s[0];
      assert EncodeBytes([b]) == [s[0]];
      assert s == [s[0]] + s[1..];
    }
  }

  function SpaceToPlus(s: string): (r: string)
    ensures |r| == |s|
    ensures forall i :: 0 <= i < |s| ==> r[i] == (if s[i] == ' ' then '+' else s[i])
  {
    seq(|s|, i requires 0 <= i < |s| => if s[i] == ' ' then '+' else s[i])
  }

  lemma SpaceToPlusCons(s: string)
    requires |s| > 0
    ensures SpaceToPlus(s) == [if s[0] == ' ' then '+' else s[0]] + SpaceToPlus(s[1..])
  {
  }

  lemma OctetOfEscape(b: Byte, rest: string)
    ensures Octet(Escape(b) + rest) == Some(b)
    ensures (Escape(b) + rest)[3..] == rest
  {
    assert b == (b / 16) * 16 + b % 16;
  }

  /** Continuation bytes are always escaped, three characters each. */
  lemma {:induction false} EncodeConts(bs: seq<Byte>)
    requires forall i :: 0 <= i < |bs| ==> IsCont(bs[i])
    ensures EncodeBytes(bs) == EscapeAll(bs) && |EscapeAll(bs)| == 3 * |bs|
    decreases |bs|
  {
    if |bs| > 0 {
      EncodeConts(bs[1..]);
    }
  }

  /** Escaped continuation bytes are read back by `Conts`, which stops right after them. */
  lemma {:induction false} ContsOfEscapes(bs: seq<Byte>, rest: string)
    requires forall i :: 0 <= i < |bs| ==> IsCont(bs[i])
    ensures Conts(EscapeAll(bs) + rest, |bs|) == Some(bs)
    ensures (EscapeAll(bs) + rest)[3 * |bs|..] == rest
    decreases |bs|
  {
    if |bs| > 0 {
      var t := EscapeAll(bs[1..]) + rest;
      var s := EscapeAll(bs) + rest;
      assert s == Escape(bs[0]) + t;
      OctetOfEscape(bs[0], t);
      ContsOfEscapes(bs[1..], rest);
      assert [bs[0]] + bs[1..] == bs;
      assert s[3 * |bs|..] == t[3 * (|bs| - 1)..];
    }
  }

  function EscapeAll(bs: seq<Byte>): string
    decreases |bs|
  {
    if |bs| == 0 then "" else Escape(bs[0]) + EscapeAll(bs[1..])
  }

  lemma DecodeEncodedAscii(c: char, rest: string)
    requires c as int < 0x80
    ensures PercentDecode(EncodeBytes(Utf8(c)) + rest)
         == Prepend(if c == ' ' then '+' else c, PercentDecode(rest))
  {
    var b: Byte := c as int;
    assert Utf8(c) == [b];
    assert EncodeBytes([b]) == EncodeByte(b);
    if b == 0x20 {
      assert EncodeByte(b) + rest == ['+'] + rest;
    } else if FormSafe(b) {
      assert EncodeByte(b) + rest == [c] + rest;
    } else {
      OctetOfEscape(b, rest);
      assert (b as char) == c;
    }
  }

  /** An escaped lead byte followed by its escaped continuation bytes decodes to the
      character they encode. */
  lemma DecodeEscapedSeq(lead: Byte, cont: seq<Byte>, c: char, rest: string)
    requires lead >= 0x80 && SeqLen(lead) >= 2 && |cont| == SeqLen(lead) - 1
    requires forall i :: 0 <= i < |cont| ==> IsCont(cont[i])
    requires DecodeSeq(lead, cont) == Some(c)
    ensures PercentDecode(Escape(lead) + EscapeAll(cont) + rest) == Prepend(c, PercentDecode(rest))
  {
    ContsOfEscapes(cont, rest);
    var t := EscapeAll(cont) + rest;
    var s := Escape(lead) + EscapeAll(cont) + rest;
    assert s == Escape(lead) + t;
    OctetOfEscape(lead, t);
    assert s[3..] == t;
    assert s[3 * SeqLen(lead)..] == t[3 * |cont|..];
  }

  lemma DecodeEncodedMultiByte(c: char, rest: string)
    requires c as int >= 0x80
    ensures PercentDecode(EncodeBytes(Utf8(c)) + rest) == Prepend(c, PercentDecode(rest))
  {
    var bs := Utf8(c);
    Utf8Decodes(c);
    var lead := bs[0];
    var cont := bs[1..];
    assert !FormSafe(lead) && lead != 0x20;
    assert EncodeBytes(bs) == Escape(lead) + EncodeBytes(cont);
    EncodeConts(cont);
    assert EncodeBytes(bs) + rest == Escape(lead) + EscapeAll(cont) + rest;
    DecodeEscapedSeq(lead, cont, c, rest);
  }

  /** Decoding the form encoding of one character, followed by any text, yields that
      character (a space as '+') and then the decoding of the text. */
  lemma DecodeEncodedChar(c: char, rest: string)
    ensures PercentDecode(EncodeBytes(Utf8(c)) + rest)
         == Prepend(if c == ' ' then '+' else c, PercentDecode(rest))
  {
    if c as int < 0x80 {
      DecodeEncodedAscii(c, rest);
    } else {
      DecodeEncodedMultiByte(c, rest);
    }
  }

  /** decodeURIComponent undoes the form encoding of any text, except that a space comes
      back as the '+' the encoder wrote for it. */
  lemma {:induction false} DecodeFormEncode(s: string)
    ensures PercentDecode(FormEncode(s)) == Some(SpaceToPlus(s))
    decreases |s|
  {
    if |s| > 0 {
      DecodeFormEncode(s[1..]);
      assert FormEncode(s) == EncodeBytes(Utf8(s[0])) + FormEncode(s[1..]);
      DecodeEncodedChar(s[0], FormEncode(s[1..]));
      SpaceToPlusCons(s);
    }
  }
}
