/** The text form of a cursor (`encode_cursor` and `decode_cursor` of
    backend/src/ade_api/common/cursor_listing.py): base64url without padding, sections 3.2 and
    5 of RFC 4648, around a JSON payload. */
module CursorToken {
  import opened Wrappers
  import opened Arithmetic
  import Listing
  import Pagination

  type Digit = x: int | 0 <= x < 64

  const PAD: char := '='

  // ----- Digits

  function CharOf(d: Digit): (c: char)
    ensures c != PAD && DigitOf(c) == Some(d)
  {
    if d < 26 then 'A' + d as char
    else if d < 52 then 'a' + (d - 26) as char
    else if d < 62 then '0' + (d - 52) as char
    else if d == 62 then '-'
    else '_'
  }

  /** The decoder also takes `+` and `/`: `urlsafe_b64decode` only maps `-` and `_` to them. */
  function DigitOf(c: char): Option<Digit> {
    if 'A' <= c <= 'Z' then Some((c - 'A') as int)
    else if 'a' <= c <= 'z' then Some((c - 'a') as int + 26)
    else if '0' <= c <= '9' then Some((c - '0') as int + 52)
    else if c == '-' || c == '+' then Some(62)
    else if c == '_' || c == '/' then Some(63)
    else None
  }

  // ----- Encoding

  function Group(b0: Byte, b1: Byte, b2: Byte): (text: string)
    ensures |text| == 4 && text[3] != PAD
  {
    [CharOf(b0 / 4), CharOf(b0 % 4 * 16 + b1 / 16), CharOf(b1 % 16 * 4 + b2 / 64), CharOf(b2 % 64)]
  }

  /** The digits of the encoding, four to three bytes. */
  function Digits(bs: seq<Byte>): string {
    if |bs| == 0 then ""
    else if |bs| == 1 then [CharOf(bs[0] / 4), CharOf(bs[0] % 4 * 16)]
    else if |bs| == 2 then [CharOf(bs[0] / 4), CharOf(bs[0] % 4 * 16 + bs[1] / 16), CharOf(bs[1] % 16 * 4)]
    else Group(bs[0], bs[1], bs[2]) + Digits(bs[3..])
  }

  function Pads(n: nat): string {
    seq(n, _ => PAD)
  }

  /** `base64.urlsafe_b64encode`: two pads after a last single byte, one after a last pair. */
  function Encode64(bs: seq<Byte>): string {
    Digits(bs) + Pads(if |bs| % 3 == 0 then 0 else 3 - |bs| % 3)
  }

  /** `str.rstrip("=")`. */
  function StripPad(text: string): string {
    if text != "" && text[|text| - 1] == PAD then StripPad(text[..|text| - 1]) else text
  }

  /** `text + "=" * (-len(text) % 4)`. */
  function AddPad(text: string): string {
    text + seq(-|text| % 4, _ => PAD)
  }

  // ----- Decoding

  /** The decoder between two characters: how many digits of the current group of four it has,
      the bits that are not yet part of a byte, how many pads it has just seen. */
  datatype Scan = Scan(quad: nat, left: nat, pads: nat)

  /** `base64.urlsafe_b64decode`: characters outside the alphabet are skipped, a padding that
      completes a group ends the input, and the input must not end within a group. */
  function DecodeFrom(text: string, s: Scan): Option<seq<Byte>>
    requires s.quad < 4 && (s.quad == 0 || s.left < 64)
  {
    if text == "" then (if s.quad == 0 then Some([]) else None)
    else if text[0] == PAD then
      if s.quad >= 2 && s.quad + s.pads + 1 >= 4 then Some([])
      else DecodeFrom(text[1..], if s.quad >= 2 then s.(pads := s.pads + 1) else s)
    else
      match DigitOf(text[0])
      case None => DecodeFrom(text[1..], s)
      case Some(d) =>
        if s.quad == 0 then DecodeFrom(text[1..], Scan(1, d, 0))
        else if s.quad == 1 then Emit((s.left * 4 + d / 16) % 256, DecodeFrom(text[1..], Scan(2, d % 16, 0)))
        else if s.quad == 2 then Emit((s.left * 16 + d / 4) % 256, DecodeFrom(text[1..], Scan(3, d % 4, 0)))
        else Emit((s.left * 64 + d) % 256, DecodeFrom(text[1..], Scan(0, 0, 0)))
  }

  function Emit(b: Byte, rest: Option<seq<Byte>>): Option<seq<Byte>> {
    if rest.None? then None else Some([b] + rest.value)
  }

  function Decode64(text: string): Option<seq<Byte>> {
    DecodeFrom(text, Scan(0, 0, 0))
  }

  // ----- Round trip of the bytes

  predicate NoPadLast(text: string) {
    text == "" || text[|text| - 1] != PAD
  }

  /** The digits say by their length how many pads there were, and never end in one. */
  lemma {:induction false} DigitsShape(bs: seq<Byte>)
    ensures NoPadLast(Digits(bs))
    ensures -|Digits(bs)| % 4 == if |bs| % 3 == 0 then 0 else 3 - |bs| % 3
  {
    if |bs| >= 3 {
      DigitsShape(bs[3..]);
      OneMoreGroup(Group(bs[0], bs[1], bs[2]), Digits(bs[3..]), |bs|);
    }
  }

  lemma OneMoreGroup(group: string, rest: string, n: int)
    requires |group| == 4 && NoPadLast(group) && NoPadLast(rest)
    ensures NoPadLast(group + rest) && -|group + rest| % 4 == -|rest| % 4 && n % 3 == (n - 3) % 3
  {
    assert -|group + rest| == -|rest| - 4;
  }

  lemma {:induction false} StripPadStripsPads(text: string, n: nat)
    requires NoPadLast(text)
    ensures StripPad(text + Pads(n)) == text
  {
    if n == 0 {
      assert text + Pads(0) == text;
    } else {
      var all := text + Pads(n);
      assert all[|all| - 1] == PAD && all[..|all| - 1] == text + Pads(n - 1);
      StripPadStripsPads(text, n - 1);
    }
  }

  lemma RestorePad(text: string, n: nat)
    requires NoPadLast(text) && n == -|text| % 4
    ensures AddPad(StripPad(text + Pads(n))) == text + Pads(n)
  {
    StripPadStripsPads(text, n);
    AddPadIsPads(text);
  }

  lemma AddPadIsPads(text: string)
    ensures AddPad(text) == text + Pads(-|text| % 4)
  {
  }

  /** Stripping the padding loses nothing: the length alone says how much to put back. */
  lemma PaddingIsRestored(bs: seq<Byte>)
    ensures AddPad(StripPad(Encode64(bs))) == Encode64(bs)
  {
    DigitsShape(bs);
    RestorePad(Digits(bs), -|Digits(bs)| % 4);
  }

  /** One digit of a group, given what the scan is left with. */
  lemma DecodeDigit(text: string, s: Scan, d: Digit, rest: string)
    requires text == [CharOf(d)] + rest && s.quad < 4 && (s.quad == 0 || s.left < 64)
    ensures DecodeFrom(text, s)
         == if s.quad == 0 then DecodeFrom(rest, Scan(1, d, 0))
            else if s.quad == 1 then Emit((s.left * 4 + d / 16) % 256, DecodeFrom(rest, Scan(2, d % 16, 0)))
            else if s.quad == 2 then Emit((s.left * 16 + d / 4) % 256, DecodeFrom(rest, Scan(3, d % 4, 0)))
            else Emit((s.left * 64 + d) % 256, DecodeFrom(rest, Scan(0, 0, 0)))
  {
    assert text[1..] == rest;
  }

  /** The bits of three bytes, cut into four digits and put together again. */
  lemma GroupBits(b0: Byte, b1: Byte, b2: Byte)
    ensures (b0 / 4 * 4 + (b0 % 4 * 16 + b1 / 16) / 16) % 256 == b0
    ensures ((b0 % 4 * 16 + b1 / 16) % 16 * 16 + (b1 % 16 * 4 + b2 / 64) / 4) % 256 == b1
    ensures ((b1 % 16 * 4 + b2 / 64) % 4 * 64 + b2 % 64) % 256 == b2
  {
    assert (b0 % 4 * 16 + b1 / 16) / 16 == b0 % 4 && (b0 % 4 * 16 + b1 / 16) % 16 == b1 / 16;
    assert (b1 % 16 * 4 + b2 / 64) / 4 == b1 % 16 && (b1 % 16 * 4 + b2 / 64) % 4 == b2 / 64;
  }

  lemma DecodeFour(t0: string, t1: string, t2: string, t3: string, rest: string, d0: Digit, d1: Digit, d2: Digit, d3: Digit)
    requires t0 == [CharOf(d0)] + t1 && t1 == [CharOf(d1)] + t2 && t2 == [CharOf(d2)] + t3 && t3 == [CharOf(d3)] + rest
    ensures Decode64(t0)
         == Emit((d0 * 4 + d1 / 16) % 256, Emit((d1 % 16 * 16 + d2 / 4) % 256, Emit((d2 % 4 * 64 + d3) % 256, Decode64(rest))))
  {
    DecodeDigit(t0, Scan(0, 0, 0), d0, t1);
    DecodeDigit(t1, Scan(1, d0, 0), d1, t2);
    DecodeDigit(t2, Scan(2, d1 % 16, 0), d2, t3);
    DecodeDigit(t3, Scan(3, d2 % 4, 0), d3, rest);
  }

  lemma DecodeGroup(rest: string, b0: Byte, b1: Byte, b2: Byte)
    ensures Decode64(Group(b0, b1, b2) + rest) == Emit(b0, Emit(b1, Emit(b2, Decode64(rest))))
  {
    var d0, d1, d2, d3 := b0 / 4, b0 % 4 * 16 + b1 / 16, b1 % 16 * 4 + b2 / 64, b2 % 64;
    GroupBits(b0, b1, b2);
    var t3 := [CharOf(d3)] + rest;
    var t2 := [CharOf(d2)] + t3;
    var t1 := [CharOf(d1)] + t2;
    assert Group(b0, b1, b2) + rest == [CharOf(d0)] + t1;
    DecodeFour([CharOf(d0)] + t1, t1, t2, t3, rest, d0, d1, d2, d3);
  }

  lemma DecodeTwo(b0: Byte, b1: Byte)
    ensures Decode64([CharOf(b0 / 4), CharOf(b0 % 4 * 16 + b1 / 16), CharOf(b1 % 16 * 4), PAD]) == Some([b0, b1])
  {
    var d0, d1, d2 := b0 / 4, b0 % 4 * 16 + b1 / 16, b1 % 16 * 4;
    GroupBits(b0, b1, 0);
    var t2 := [CharOf(d2)] + [PAD];
    var t1 := [CharOf(d1)] + t2;
    assert [CharOf(d0), CharOf(d1), CharOf(d2), PAD] == [CharOf(d0)] + t1;
    DecodeDigit([CharOf(d0)] + t1, Scan(0, 0, 0), d0, t1);
    DecodeDigit(t1, Scan(1, d0, 0), d1, t2);
    DecodeDigit(t2, Scan(2, d1 % 16, 0), d2, [PAD]);
    assert DecodeFrom([PAD], Scan(3, d2 % 4, 0)) == Some([]);
    assert [b0] + ([b1] + []) == [b0, b1];
  }

  lemma DecodeOne(b0: Byte)
    ensures Decode64([CharOf(b0 / 4), CharOf(b0 % 4 * 16), PAD, PAD]) == Some([b0])
  {
    var d0, d1 := b0 / 4, b0 % 4 * 16;
    GroupBits(b0, 0, 0);
    var t1 := [CharOf(d1)] + [PAD, PAD];
    assert [CharOf(d0), CharOf(d1), PAD, PAD] == [CharOf(d0)] + t1;
    DecodeDigit([CharOf(d0)] + t1, Scan(0, 0, 0), d0, t1);
    DecodeDigit(t1, Scan(1, d0, 0), d1, [PAD, PAD]);
    assert [PAD, PAD][1..] == [PAD] && DecodeFrom([PAD], Scan(2, d1 % 16, 1)) == Some([]);
    assert DecodeFrom([PAD, PAD], Scan(2, d1 % 16, 0)) == Some([]) && [b0] + [] == [b0];
  }

  lemma EncodeFirst(bs: seq<Byte>)
    requires |bs| >= 3
    ensures Encode64(bs) == Group(bs[0], bs[1], bs[2]) + Encode64(bs[3..])
    ensures bs == [bs[0]] + ([bs[1]] + ([bs[2]] + bs[3..]))
  {
  }

  lemma {:induction false} DecodeOfEncode(bs: seq<Byte>, text: string)
    requires text == Encode64(bs)
    ensures Decode64(text) == Some(bs)
  {
    if |bs| >= 3 {
      var rest := Encode64(bs[3..]);
      EncodeFirst(bs);
      DecodeGroup(rest, bs[0], bs[1], bs[2]);
      DecodeOfEncode(bs[3..], rest);
    } else {
      DecodeShort(bs);
    }
  }

  lemma DecodeShort(bs: seq<Byte>)
    requires |bs| < 3
    ensures Decode64(Encode64(bs)) == Some(bs)
  {
    assert Pads(0) == [] && Pads(1) == [PAD] && Pads(2) == [PAD, PAD];
    if |bs| == 2 {
      assert Encode64(bs) == [CharOf(bs[0] / 4), CharOf(bs[0] % 4 * 16 + bs[1] / 16), CharOf(bs[1] % 16 * 4), PAD];
      assert bs == [bs[0], bs[1]];
      DecodeTwo(bs[0], bs[1]);
    } else if |bs| == 1 {
      assert Encode64(bs) == [CharOf(bs[0] / 4), CharOf(bs[0] % 4 * 16), PAD, PAD];
      assert bs == [bs[0]];
      DecodeOne(bs[0]);
    }
  }

  /** Bytes of any length survive: encode, strip, pad again, decode. */
  lemma BytesSurvive(bs: seq<Byte>)
    ensures Decode64(AddPad(StripPad(Encode64(bs)))) == Some(bs)
  {
    PaddingIsRestored(bs);
    DecodeOfEncode(bs, Encode64(bs));
  }

  // ----- Which tokens are refused

  predicate AllDigits(text: string) {
    forall i :: 0 <= i < |text| ==> text[i] != PAD && DigitOf(text[i]).Some?
  }

  lemma {:induction false} DecodePads(n: nat, s: Scan)
    requires s.quad < 4 && (s.quad == 0 || s.left < 64)
    ensures DecodeFrom(Pads(n), s).Some? <==> s.quad == 0 || (s.quad >= 2 && n > 0 && s.quad + s.pads + n >= 4)
    decreases n
  {
    if n > 0 {
      assert Pads(n)[1..] == Pads(n - 1);
      DecodePads(n - 1, if s.quad >= 2 then s.(pads := s.pads + 1) else s);
    }
  }

  /** The scan after one more digit. */
  function NextScan(s: Scan, d: Digit): Scan {
    if s.quad == 0 then Scan(1, d, 0)
    else if s.quad == 1 then Scan(2, d % 16, 0)
    else if s.quad == 2 then Scan(3, d % 4, 0)
    else Scan(0, 0, 0)
  }

  lemma DigitGoesOn(text: string, rest: string, s: Scan, d: Digit)
    requires text != "" && text[0] != PAD && DigitOf(text[0]) == Some(d) && rest == text[1..]
    requires s.quad < 4 && (s.quad == 0 || s.left < 64)
    ensures DecodeFrom(text, s).Some? <==> DecodeFrom(rest, NextScan(s, d)).Some?
  {
  }

  lemma {:induction false} DecodeDigits(text: string, all: string, n: nat, s: Scan, q: nat)
    requires AllDigits(text) && s.quad < 4 && (s.quad == 0 || s.left < 64) && s.pads == 0
    requires q == (s.quad + |text|) % 4 && all == text + Pads(n)
    ensures DecodeFrom(all, s).Some? <==> q == 0 || (q >= 2 && q + n >= 4)
    decreases |text|
  {
    if text == "" {
      assert all == Pads(n);
      DecodePads(n, s);
    } else {
      var d := DigitOf(text[0]).value;
      assert all[1..] == text[1..] + Pads(n);
      DecodeDigits(text[1..], all[1..], n, NextScan(s, d), q);
      DigitGoesOn(all, all[1..], s, d);
    }
  }

  /** A token of digits alone is refused as base64 exactly when its length leaves one over a
      group of four; no other length needs the padding that was stripped. */
  lemma RefusedIffOneOver(token: string)
    requires AllDigits(token)
    ensures Decode64(AddPad(token)).None? <==> |token| % 4 == 1
  {
    AddPadIsPads(token);
    DecodeDigits(token, AddPad(token), -|token| % 4, Scan(0, 0, 0), |token| % 4);
  }

  // ----- The payload

  const CURSOR_VERSION := 1

  /** JSON values; `Other` stands for those that no check here looks into. */
  datatype Json = JNull | JInt(n: int) | JString(s: string) | JList(items: seq<Json>) | JObject(members: map<string, Json>) | JOther(tag: int)

  datatype TokenError = Invalid | Unsupported

  datatype CursorToken = CursorToken(sort: seq<string>, values: seq<Json>)

  function Strings(names: seq<string>): (items: seq<Json>)
    ensures |items| == |names|
    ensures forall i :: 0 <= i < |names| ==> items[i] == JString(names[i])
  {
    seq(|names|, i requires 0 <= i < |names| => JString(names[i]))
  }

  function Payload(sort: seq<string>, values: seq<Json>): Json {
    JObject(map["v" := JInt(CURSOR_VERSION), "sort" := JList(Strings(sort)), "values" := JList(values)])
  }

  /** `encode_cursor`, of values already serialized; `dump` is JSON text in UTF-8. */
  function EncodeCursor(sort: seq<string>, values: seq<Json>, dump: Json -> seq<Byte>): string {
    StripPad(Encode64(dump(Payload(sort, values))))
  }

  function Get(members: map<string, Json>, key: string): Json {
    if key in members then members[key] else JNull
  }

  /** `[str(item) for item in sort]`. */
  function Texts(items: seq<Json>, str: Json -> string): (names: seq<string>)
    ensures |names| == |items|
    ensures forall i :: 0 <= i < |items| ==> names[i] == if items[i].JString? then items[i].s else str(items[i])
  {
    seq(|items|, i requires 0 <= i < |items| => if items[i].JString? then items[i].s else str(items[i]))
  }

  /** `decode_cursor`; `load` fails on bytes that are no UTF-8 or no JSON, and `str` is
      Python's for JSON values other than strings. */
  function DecodeCursor(token: string, load: seq<Byte> -> Option<Json>, str: Json -> string): Result<CursorToken, TokenError> {
    match Decode64(AddPad(token))
    case None => Err(Invalid)
    case Some(raw) =>
      match load(raw)
      case None => Err(Invalid)
      case Some(payload) =>
        if !payload.JObject? then Err(Invalid)
        else if Get(payload.members, "v") != JInt(CURSOR_VERSION) then Err(Unsupported)
        else
          var sort, values := Get(payload.members, "sort"), Get(payload.members, "values");
          if !sort.JList? || !values.JList? then Err(Invalid)
          else Ok(CursorToken(Texts(sort.items, str), values.items))
  }

  /** Given that JSON reads back what it wrote, a cursor handed out comes back unchanged. */
  lemma CursorSurvives(sort: seq<string>, values: seq<Json>, dump: Json -> seq<Byte>, load: seq<Byte> -> Option<Json>, str: Json -> string)
    requires forall payload :: load(dump(payload)) == Some(payload)
    ensures DecodeCursor(EncodeCursor(sort, values, dump), load, str) == Ok(CursorToken(sort, values))
  {
    var payload := Payload(sort, values);
    BytesSurvive(dump(payload));
    assert load(dump(payload)) == Some(payload);
    assert Texts(Strings(sort), str) == sort;
  }

  predicate UrlSafe(c: char) {
    'A' <= c <= 'Z' || 'a' <= c <= 'z' || '0' <= c <= '9' || c == '-' || c == '_'
  }

  lemma {:induction false} DigitsAreUrlSafe(bs: seq<Byte>)
    ensures forall i :: 0 <= i < |Digits(bs)| ==> UrlSafe(Digits(bs)[i])
  {
    if |bs| >= 3 {
      DigitsAreUrlSafe(bs[3..]);
    }
  }

  /** A cursor can stand in a URL as it is: letters, digits, hyphens and underscores. */
  lemma CursorIsUrlSafe(sort: seq<string>, values: seq<Json>, dump: Json -> seq<Byte>)
    ensures forall i :: 0 <= i < |EncodeCursor(sort, values, dump)| ==> UrlSafe(EncodeCursor(sort, values, dump)[i])
  {
    var raw := dump(Payload(sort, values));
    DigitsShape(raw);
    StripPadStripsPads(Digits(raw), -|Digits(raw)| % 4);
    DigitsAreUrlSafe(raw);
  }

  predicate HasList(members: map<string, Json>, key: string) {
    key in members && members[key].JList?
  }

  /** Texts as they are, anything else as some text. */
  predicate SortOf(items: seq<Json>, sort: seq<string>) {
    |sort| == |items| && forall i :: 0 <= i < |items| && items[i].JString? ==> sort[i] == items[i].s
  }

  /** What becomes of any JSON value sent as a cursor. */
  lemma PayloadOutcome(payload: Json, dump: Json -> seq<Byte>, load: seq<Byte> -> Option<Json>, str: Json -> string)
    requires load(dump(payload)) == Some(payload)
    ensures var r := DecodeCursor(StripPad(Encode64(dump(payload))), load, str);
            if !payload.JObject? then r == Err(Invalid)
            else if "v" !in payload.members || payload.members["v"] != JInt(1) then r == Err(Unsupported)
            else if !HasList(payload.members, "sort") || !HasList(payload.members, "values") then r == Err(Invalid)
            else r.Ok? && r.value.values == payload.members["values"].items && SortOf(payload.members["sort"].items, r.value.sort)
  {
    BytesSurvive(dump(payload));
  }

  // ----- The cursor of a page, as text

  /** `serialize_cursor_value` and the parsers of the columns, which undo it. */
  function ToJson(cell: Listing.Cell): Json {
    if cell.Null? then JNull else JInt(cell.v)
  }

  function FromJson(json: Json): Option<Listing.Cell> {
    match json
    case JNull => Some(Listing.Null)
    case JInt(n) => Some(Listing.Val(n))
    case _ => None
  }

  function ToJsons(cells: seq<Listing.Cell>): (items: seq<Json>)
    ensures |items| == |cells|
    ensures forall i :: 0 <= i < |cells| ==> items[i] == ToJson(cells[i])
  {
    seq(|cells|, i requires 0 <= i < |cells| => ToJson(cells[i]))
  }

  function FromJsons(items: seq<Json>): Option<seq<Listing.Cell>> {
    if items == [] then Some([])
    else
      match FromJson(items[0])
      case None => None
      case Some(cell) =>
        match FromJsons(items[1..])
        case None => None
        case Some(rest) => Some([cell] + rest)
  }

  lemma {:induction false} FromToJsons(cells: seq<Listing.Cell>)
    ensures FromJsons(ToJsons(cells)) == Some(cells)
  {
    if cells != [] {
      FromToJsons(cells[1..]);
      assert ToJsons(cells)[1..] == ToJsons(cells[1..]) && cells == [cells[0]] + cells[1..];
      assert ToJsons(cells)[0] == ToJson(cells[0]);
    }
  }

  /** What a client sends back to get the next page is the cursor that the page gave out. */
  lemma PageCursorSurvives(token: Pagination.Token, dump: Json -> seq<Byte>, load: seq<Byte> -> Option<Json>, str: Json -> string)
    requires forall payload :: load(dump(payload)) == Some(payload)
    ensures var decoded := DecodeCursor(EncodeCursor(token.sort, ToJsons(token.values), dump), load, str);
            && decoded.Ok? && decoded.value.sort == token.sort
            && FromJsons(decoded.value.values) == Some(token.values)
  {
    CursorSurvives(token.sort, ToJsons(token.values), dump, load, str);
    FromToJsons(token.values);
  }
}
