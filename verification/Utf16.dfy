/** UTF-16 in little-endian byte order, as sections 2.1 and 2.2 of RFC 2781 define it: what the length of
    a message is counted in. */
module Utf16 {
  import opened Outcomes

  newtype Byte = x: int | 0 <= x < 256

  const FIRST_HIGH := 0xD800
  const FIRST_LOW := 0xDC00
  const LAST_LOW := 0xDFFF
  const BASE := 0x1_0000

  /** One code unit, low byte first. */
  function Unit(u: int): (b: seq<Byte>)
    requires 0 <= u < BASE
    ensures |b| == 2 && UnitOf(b[0], b[1]) == u
  {
    [(u % 256) as Byte, (u / 256) as Byte]
  }

  function UnitOf(low: Byte, high: Byte): (u: int)
    ensures 0 <= u < BASE
  {
    low as int + 256 * high as int
  }

  function EncodeChar(c: char): seq<Byte> {
    var u := c as int;
    if u < BASE then Unit(u)
    else Unit(FIRST_HIGH + (u - BASE) / 0x400) + Unit(FIRST_LOW + (u - BASE) % 0x400)
  }

  function Encode(s: string): seq<Byte> {
    if s == "" then [] else EncodeChar(s[0]) + Encode(s[1..])
  }

  /** The first character of the bytes and how many bytes it takes. */
  function DecodeChar(b: seq<Byte>): (r: Option<(char, nat)>)
    ensures r.Some? ==> 2 <= r.value.1 <= |b|
  {
    if |b| < 2 then None
    else
      var first := UnitOf(b[0], b[1]);
      if first < FIRST_HIGH || first > LAST_LOW then Some((first as char, 2))
      else if first >= FIRST_LOW || |b| < 4 then None
      else
        var second := UnitOf(b[2], b[3]);
        if second < FIRST_LOW || second > LAST_LOW then None
        else Some(((BASE + (first - FIRST_HIGH) * 0x400 + (second - FIRST_LOW)) as char, 4))
  }

  function Decode(b: seq<Byte>): Option<string>
    decreases |b|
  {
    if b == [] then Some("")
    else
      match DecodeChar(b)
      case None => None
      case Some((c, n)) =>
        match Decode(b[n..])
        case None => None
        case Some(s) => Some([c] + s)
  }

  lemma CharReadsBack(c: char, rest: seq<Byte>)
    ensures DecodeChar(EncodeChar(c) + rest) == Some((c, |EncodeChar(c)|))
  {
    var u := c as int;
    var b := EncodeChar(c) + rest;
    if u < BASE {
      assert b[0] == Unit(u)[0] && b[1] == Unit(u)[1];
    } else {
      var high, low := FIRST_HIGH + (u - BASE) / 0x400, FIRST_LOW + (u - BASE) % 0x400;
      assert b[0] == Unit(high)[0] && b[1] == Unit(high)[1] && b[2] == Unit(low)[0] && b[3] == Unit(low)[1];
    }
  }

  /** Every text is read back from its bytes. */
  lemma {:induction false} DecodeUndoesEncode(s: string)
    ensures Decode(Encode(s)) == Some(s)
  {
    if s != "" {
      var rest := Encode(s[1..]);
      CharReadsBack(s[0], rest);
      assert (EncodeChar(s[0]) + rest)[|EncodeChar(s[0])|..] == rest;
      DecodeUndoesEncode(s[1..]);
      assert [s[0]] + s[1..] == s;
    }
  }

  lemma {:induction false} EncodeAppends(s: string, t: string)
    ensures Encode(s + t) == Encode(s) + Encode(t)
  {
    if s == "" {
      assert s + t == t;
    } else {
      assert (s + t)[0] == s[0] && (s + t)[1..] == s[1..] + t;
      EncodeAppends(s[1..], t);
    }
  }
}
