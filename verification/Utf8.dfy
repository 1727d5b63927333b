/** Bytes and the UTF-8 encoding of text (RFC 3629), as Rust's `str::as_bytes` and
    `String::from_utf8` define it. Text is a sequence of Unicode scalar values. */
module Utf8 {
  datatype Option<+T> = None | Some(value: T)

  type Byte = b: int | 0 <= b < 256
  type Bytes = seq<Byte>

  const LF: Byte := 10
  const CR: Byte := 13

  /** The one to four bytes of a scalar value. */
  function EncodeChar(c: char): (r: Bytes)
    ensures 1 <= |r| <= 4
    ensures c < 128 as char ==> r == [c as int]
    ensures c >= 128 as char ==> forall i | 0 <= i < |r| :: r[i] >= 128
  {
    var n := c as int;
    var d1, d2, d3 := n / 64, n / 64 / 64, n / 64 / 64 / 64;
    if n < 0x80 then [n]
    else if n < 0x800 then [0xC0 + d1, 0x80 + n % 64]
    else if n < 0x1_0000 then [0xE0 + d2, 0x80 + d1 % 64, 0x80 + n % 64]
    else [0xF0 + d3, 0x80 + d2 % 64, 0x80 + d1 % 64, 0x80 + n % 64]
  }

  function Encode(s: string): (r: Bytes)
    ensures |r| >= |s|
  {
    if s == [] then [] else EncodeChar(s[0]) + Encode(s[1..])
  }

  predicate Continuation(b: Byte) {
    0x80 <= b < 0xC0
  }

  /** The first scalar value of `b` and how many bytes it takes; none when `b`
      does not start with a well-formed, shortest-form sequence. */
  function DecodeFirst(b: Bytes): (r: Option<(char, nat)>)
    ensures r.Some? ==> 1 <= r.value.1 <= |b|
  {
    if b == [] then None
    else if b[0] < 0x80 then Some((b[0] as char, 1))
    else if 0xC2 <= b[0] < 0xE0 && |b| >= 2 && Continuation(b[1]) then
      Some(((64 * (b[0] as int - 0xC0) + (b[1] - 0x80)) as char, 2))
    else if 0xE0 <= b[0] < 0xF0 && |b| >= 3 && Continuation(b[1]) && Continuation(b[2]) then
      var n := 64 * (64 * (b[0] as int - 0xE0) + (b[1] - 0x80)) + (b[2] - 0x80);
      if n < 0x800 || 0xD800 <= n < 0xE000 then None else Some((n as char, 3))
    else if 0xF0 <= b[0] < 0xF8 && |b| >= 4 && Continuation(b[1]) && Continuation(b[2]) && Continuation(b[3]) then
      var n := 64 * (64 * (64 * (b[0] as int - 0xF0) + (b[1] - 0x80)) + (b[2] - 0x80)) + (b[3] - 0x80);
      if n < 0x1_0000 || 0x11_0000 <= n then None else Some((n as char, 4))
    else None
  }

  /** `String::from_utf8`: all of `b` or nothing. */
  function Decode(b: Bytes): (r: Option<string>) {
    if b == [] then Some("")
    else
      match DecodeFirst(b)
      case None => None
      case Some((c, k)) =>
        match Decode(b[k..])
        case None => None
        case Some(s) => Some([c] + s)
  }

  lemma DecodeFirstOfEncodeChar(c: char, rest: Bytes)
    ensures DecodeFirst(EncodeChar(c) + rest) == Some((c, |EncodeChar(c)|))
  {
    var b := EncodeChar(c) + rest;
    var n := c as int;
    var d1 := n / 64;
    var d2 := d1 / 64;
    assert n == 64 * d1 + n % 64 && d1 == 64 * d2 + d1 % 64 && d2 == 64 * (d2 / 64) + d2 % 64;
    assert b[..|EncodeChar(c)|] == EncodeChar(c);
    assert forall i | 0 <= i < |EncodeChar(c)| :: b[i] == EncodeChar(c)[i];
  }

  lemma Base64Digits(x: int, y: int)
    requires 0 <= y < 64
    ensures (64 * x + y) / 64 == x && (64 * x + y) % 64 == y
  {
  }

  lemma EncodeCharOfDecodeFirst(b: Bytes)
    requires DecodeFirst(b).Some?
    ensures var (c, k) := DecodeFirst(b).value; b[..k] == EncodeChar(c)
  {
    var (c, k) := DecodeFirst(b).value;
    if k == 2 {
      Base64Digits(b[0] as int - 0xC0, b[1] - 0x80);
    } else if k == 3 {
      var hi := 64 * (b[0] as int - 0xE0) + (b[1] - 0x80);
      Base64Digits(b[0] as int - 0xE0, b[1] - 0x80);
      Base64Digits(hi, b[2] - 0x80);
    } else if k == 4 {
      var top := 64 * (b[0] as int - 0xF0) + (b[1] - 0x80);
      var hi := 64 * top + (b[2] - 0x80);
      Base64Digits(b[0] as int - 0xF0, b[1] - 0x80);
      Base64Digits(top, b[2] - 0x80);
      Base64Digits(hi, b[3] - 0x80);
    }
  }

  /** Decoding undoes encoding, whatever text it is. */
  lemma {:induction false} DecodeEncode(s: string)
    ensures Decode(Encode(s)) == Some(s)
  {
    if s != [] {
      DecodeFirstOfEncodeChar(s[0], Encode(s[1..]));
      assert Encode(s)[|EncodeChar(s[0])|..] == Encode(s[1..]);
      DecodeEncode(s[1..]);
      assert [s[0]] + s[1..] == s;
    }
  }

  /** Text put before what was decoded, if anything was. */
  function Put(s: string, decoded: Option<string>): Option<string> {
    match decoded case None => None case Some(x) => Some(s + x)
  }

  lemma PutLaws(c: char, s: string, decoded: Option<string>)
    ensures Put([c], Put(s, decoded)) == Put([c] + s, decoded) && Put([], decoded) == decoded
  {
    if decoded.Some? {
      assert [c] + (s + decoded.value) == [c] + s + decoded.value && [] + decoded.value == decoded.value;
    }
  }

  /** Text before other bytes decodes by itself. */
  lemma {:induction false} DecodeAfter(s: string, t: Bytes)
    ensures Decode(Encode(s) + t) == Put(s, Decode(t))
  {
    hide EncodeChar, DecodeFirst, Decode, Put;
    if s == [] {
      assert Encode(s) + t == t;
      PutLaws(' ', s, Decode(t));
    } else {
      var rest := Encode(s[1..]) + t;
      assert Encode(s) + t == EncodeChar(s[0]) + rest;
      DecodeAfter(s[1..], t);
      DecodeCons(s[0], rest);
      PutLaws(s[0], s[1..], Decode(t));
      assert [s[0]] + s[1..] == s;
    }
  }

  lemma DecodeCons(c: char, rest: Bytes)
    ensures Decode(EncodeChar(c) + rest) == Put([c], Decode(rest))
  {
    DecodeFirstOfEncodeChar(c, rest);
    hide EncodeChar, DecodeFirst;
    var b := EncodeChar(c) + rest;
    assert b[|EncodeChar(c)|..] == rest && b != [];
  }

  /** Encoding undoes decoding: only the shortest form of a text is accepted. */
  lemma {:induction false} EncodeDecode(b: Bytes)
    requires Decode(b).Some?
    ensures Encode(Decode(b).value) == b
    decreases |b|
  {
    hide DecodeFirst, EncodeChar;
    if b != [] {
      var (c, k) := DecodeFirst(b).value;
      EncodeCharOfDecodeFirst(b);
      EncodeDecode(b[k..]);
      assert Decode(b).value[1..] == Decode(b[k..]).value;
    }
  }

  lemma EncodeInjective(s: string, t: string)
    requires Encode(s) == Encode(t)
    ensures s == t
  {
    DecodeEncode(s);
    DecodeEncode(t);
  }

  lemma {:induction false} EncodeConcat(s: string, t: string)
    ensures Encode(s + t) == Encode(s) + Encode(t)
  {
    if s == [] {
      assert s + t == t;
    } else {
      assert (s + t)[1..] == s[1..] + t;
      EncodeConcat(s[1..], t);
    }
  }

  /** A byte below 128 occurs in an encoding exactly where its character occurs in the text. */
  lemma {:induction false} EncodeAsciiMember(s: string, c: char)
    requires c < 128 as char
    ensures c in s <==> (c as int) in Encode(s)
  {
    if s != [] {
      EncodeAsciiMember(s[1..], c);
      assert s == [s[0]] + s[1..];
      assert (c as int) in EncodeChar(s[0]) <==> c == s[0];
    }
  }

  predicate IsAscii(s: string) {
    forall i | 0 <= i < |s| :: s[i] < 128 as char
  }

  /** ASCII text takes one byte a character. */
  lemma {:induction false} EncodeAscii(s: string)
    requires IsAscii(s)
    ensures |Encode(s)| == |s|
    ensures forall i | 0 <= i < |s| :: Encode(s)[i] == s[i] as int
  {
    if s != [] {
      EncodeAscii(s[1..]);
      forall i | 0 <= i < |s| ensures Encode(s)[i] == s[i] as int {
        if i > 0 { assert s[i] == s[1..][i - 1]; }
      }
    }
  }

  /** The second bytes a multi-byte lead allows. */
  predicate SecondFits(lead: Byte, second: Byte) {
    if lead == 0xE0 then 0xA0 <= second < 0xC0
    else if lead == 0xED then 0x80 <= second < 0xA0
    else if lead == 0xF0 then 0x90 <= second < 0xC0
    else if lead == 0xF4 then 0x80 <= second < 0x90
    else Continuation(second)
  }

  /** How many bytes of an ill-formed start one replacement character stands for. */
  function IllFormed(b: Bytes): (n: nat)
    requires b != []
    ensures 1 <= n <= |b|
  {
    if !(0xE0 <= b[0] < 0xF5) || |b| < 2 || !SecondFits(b[0], b[1]) then 1
    else if b[0] < 0xF0 || |b| < 3 || !Continuation(b[2]) then 2
    else 3
  }

  /** `String::from_utf8_lossy`. */
  function Lossy(b: Bytes): string {
    if b == [] then ""
    else
      match DecodeFirst(b)
      case Some((c, k)) => [c] + Lossy(b[k..])
      case None => "\U{FFFD}" + Lossy(b[IllFormed(b)..])
  }

  /** Nothing is replaced in well-formed text. */
  lemma {:induction false} LossyOfText(s: string)
    ensures Lossy(Encode(s)) == s
  {
    if s != [] {
      DecodeFirstOfEncodeChar(s[0], Encode(s[1..]));
      assert Encode(s)[|EncodeChar(s[0])|..] == Encode(s[1..]);
      LossyOfText(s[1..]);
      assert [s[0]] + s[1..] == s;
    }
  }
}
